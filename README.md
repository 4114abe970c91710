# Cross-validated RAG evaluation harness, modelled in Dafny

This project models the evaluation harness of `rag-llms/rag_llm_gemma.py`. The harness decides whether a
retrieval-augmented language model accepts or rejects adversarial prompts. It has five parts:

- **Corpus preparation.** `mutations_to_prompts` maps each mutated prompt to the base prompt that owns it.
  The retrieval `documents` are all mutations whose owner is not one of the `PROMPTS_TO_IGNORE`.
- **Decision normalizer.** `llm_output_to_accept_reject` turns free model text into `ACCEPT` or `REJECT`.
  `REJECT` is tested first, on the upper-cased text, then `LET THROUGH`. When neither occurs, a human is
  asked until they type exactly `LT` or `R`.
- **Fold partitioner.** `CrossValidationType` has four schemes: SimpleFifths, EveryFifth,
  JackknifedBasePrompts and Disabled. Each scheme fixes the number of folds (`OUTER_RANGE`) and a test
  predicate on fold `i` and index `j`.
- **Evaluation driver.** `run_with_cross_validation` runs each fold in turn. It builds the fold's training
  list from the documents and walks the test rows, skipping ignored ones. Each selected row goes to the
  pipeline, and the answer is normalized and recorded in `to_output` and the `responses` tally.
- **Properties.** Lemmas about what a run guarantees.

The files match those parts:

- `outcomes.dfy`: `Option`, `Result` and the errors of a run that this model represents.
- `text.dfy`: upper-casing, substring search and suffix test.
- `normalizer.dfy`: the normalizer, as a spec function `Normalize` plus the method with the human-input loop.
- `folds.dfy`: schemes, fold counts, the test predicate, the unique fold of an index, and `TrainingSplit`.
- `corpus.dfy`: the owner-map loop, the flattening of all mutations, the `documents` filter.
- `driver.dfy`: the driver method, with the training loop and the test loop of a fold as two methods of their
  own. It keeps `N` as a mutable local and is proved equal to the spec function `Run`, which is built from `StepRow`, `WalkRows` and `RunFolds`.
- `run_properties.dfy`: lemmas about `Run`: which rows give entries, exact coverage, tally bookkeeping,
  error cases, and the consequences of reassigning `N`.

Modelling choices:

- **The pipeline** (embeddings, vector store, retrieval, prompt template, language model) is one opaque
  function `rag(training, question)`. Passing the fold's training list in place of the global
  `vector_store` makes it explicit that each fold retrieves only from its own training list.
- **The human** is the sequence of lines they type. When the lines run out, `input()` would raise
  EOFError; the model returns the error `EndOfInput`. The normalizer's contract says that, when neither
  marker occurs, the result is `Ok` exactly when a valid token occurs among the lines.
- **Fold predicates.** The source's float divisions `j // (N / 5)` and `j // (N / OUTER_RANGE)` become
  the integer expressions `(5 * j) / N` and `(j * OUTER_RANGE) / N`. These are the floor of the same
  real quotient.
- **Division by zero.** A size of zero where the source divides by it is the error `ZeroDivision`.

## Behaviour of the code a reader may not expect

- **`N` is reassigned.** `N` starts as the number of documents (line 134). Line 181 reassigns it to the
  number of test rows, and the test-predicate lambdas read `N` when they are called. So only fold 0
  splits the documents by their own size. From fold 1 on, the documents are split by the test file's
  size, not by their own. `OUTER_RANGE` stays fixed from the original document count. Two consequences,
  both proved in the model's exact integer arithmetic (see "## Left out" for where floats differ):
  - `LaterFoldsKeepDocumentsPastTestFileSize`: with SimpleFifths or JackknifedBasePrompts, documents at
    indices at or past the number of test rows are never held out after fold 0.
  - `EmptyTestFileDividesByZero`: with SimpleFifths, an empty test file makes fold 1 divide by zero when
    there are documents. The same happens with JackknifedBasePrompts when there are at least 10 documents,
    so that a fold 1 exists. EveryFifth and Disabled never divide, so they never fail this way
    (`RunFoldsErrors`).
- **Last owner wins.** The ignore filter looks up a mutation's owner in the map, where the last record
  listing the mutation wins. A mutation listed under an ignored base prompt and again under a later,
  non-ignored one therefore stays in the documents (`SharedMutationSurvivesIgnore`). What the model proves
  is that every document's last owner is not ignored.
- **Reject always wins.** `REJECT` is tested before `LET THROUGH` (lines 95-98), so an answer containing
  both is classified REJECT (`Normalize`, `RejectInAnyCase`).

## Model

| member | source | states |
|---|---|---|
| `Text.Upper` | rag-llms/rag_llm_gemma.py:95-97 | definition of `str.upper` on ASCII: each character upper-cased in place |
| `Text.Contains` | rag-llms/rag_llm_gemma.py:95-97 | definition of the `in` test on strings: the marker is a prefix of the text or of one of its suffixes (characterized by `ContainsAt`) |
| `Text.EndsWith` | rag-llms/rag_llm_gemma.py:138-140 | definition of `str.endswith`: the suffix is the last characters of the text |
| `Text.ContainsAt` | rag-llms/rag_llm_gemma.py:95-97 | the recursive substring search holds exactly when the marker occurs at some position of the text |
| `Text.ContainsUpper` | rag-llms/rag_llm_gemma.py:95-97 | a marker found in the text is found, upper-cased, in the upper-cased text |
| `Normalizer.Verdict.Name` | rag-llms/rag_llm_gemma.py:94-105 | definition of the strings the normalizer returns and the tally keys: `"ACCEPT"` and `"REJECT"` |
| `Normalizer.IsToken` | rag-llms/rag_llm_gemma.py:101 | definition of the loop's exit test: a line that is exactly `LT` or `R` |
| `Normalizer.TokenVerdict` | rag-llms/rag_llm_gemma.py:105 | definition of the verdict of a token: `LT` gives ACCEPT, `R` gives REJECT |
| `Normalizer.FirstToken` | rag-llms/rag_llm_gemma.py:101-104 | finds the first line that is exactly `LT` or `R`, every earlier line is not one; none found exactly when no line is a token |
| `Normalizer.FirstTokenAt` | rag-llms/rag_llm_gemma.py:101-104 | a token preceded only by non-tokens is the first token |
| `Normalizer.Normalize` | rag-llms/rag_llm_gemma.py:94-105 | `REJECT` in the upper-cased text gives REJECT with no input read, even beside `LET THROUGH`; otherwise `LET THROUGH` gives ACCEPT with no input read; otherwise the first exact `LT`/`R` line decides (ACCEPT/REJECT) after skipping all earlier lines, and the input running out (no token at all) is the only failure |
| `Normalizer.RejectInAnyCase` | rag-llms/rag_llm_gemma.py:95-96 | text containing "reject" in any letter case is classified REJECT, reading none of the human lines, whatever they are |
| `Normalizer.LlmOutputToAcceptReject` | rag-llms/rag_llm_gemma.py:94-105 | the loop reads lines until a token; its verdict and the number of lines read are those of `Normalize`, and it fails with end of input only after reading every line |
| `Folds.OuterRange` | rag-llms/rag_llm_gemma.py:145-159 | definition of `OUTER_RANGE`: 5 for SimpleFifths and EveryFifth, the document count divided by 5 (rounded down) for JackknifedBasePrompts, 1 for Disabled |
| `Folds.DisabledFlag` | rag-llms/rag_llm_gemma.py:146-160 | definition of `DISABLED_FLAG`: true only for Disabled; line 186 then takes every non-ignored row |
| `Folds.DivisorOk` | rag-llms/rag_llm_gemma.py:149-159 | definition of when the lambdas do not raise ZeroDivisionError: SimpleFifths needs a non-zero `N`, JackknifedBasePrompts a non-zero `N` and `OUTER_RANGE`; EveryFifth and Disabled never divide |
| `Folds.Tested` | rag-llms/rag_llm_gemma.py:146-159 | definition of `CONDITION_FOR_TESTING(i, j)` for the size it reads: `(5 * j) / n == i`, `j % 5 == i`, `(j * OUTER_RANGE) / n == i`, or never under Disabled (characterized by `FoldOf`) |
| `Folds.TrainingSplit` | rag-llms/rag_llm_gemma.py:168-173 | definition of the training list: the documents, in order, whose index the predicate does not test (characterized by `TrainingSplitSelects`) |
| `Folds.FoldOf` | rag-llms/rag_llm_gemma.py:149-159 | for SimpleFifths and EveryFifth (5 folds) and JackknifedBasePrompts (`OUTER_RANGE` folds, at least one), each index below the size is tested by exactly one fold, and that fold is below `OUTER_RANGE` |
| `Folds.IndicesPastSizeNeverTested` | rag-llms/rag_llm_gemma.py:151-159 | under SimpleFifths and JackknifedBasePrompts, an index at or past the size the predicate reads is tested by no running fold |
| `Folds.KeptIndicesExact` | rag-llms/rag_llm_gemma.py:168-174 | the indices a fold keeps for training are increasing and are exactly the indices its predicate does not test |
| `Folds.TrainingSplitSelects` | rag-llms/rag_llm_gemma.py:168-174 | the training list is the documents at the kept indices, in the documents' order |
| `Folds.TrainingSplitDisabled` | rag-llms/rag_llm_gemma.py:146-174 | under Disabled the training list is all documents |
| `Corpus.LastOwner` | rag-llms/rag_llm_gemma.py:21-23 | definition of a mutation's entry in `mutations_to_prompts`: the base prompt of the last record listing it (characterized by `LastOwnerIsLast`) |
| `Corpus.LastOwnerIsLast` | rag-llms/rag_llm_gemma.py:21-23 | the owner of a mutation is the base prompt of the last record that lists it; a mutation no record lists has none |
| `Corpus.BuildMutationsToPrompts` | rag-llms/rag_llm_gemma.py:18-23 | the map filled record by record holds exactly the listed mutations, each mapped to its last owner |
| `Corpus.Flatten` | rag-llms/rag_llm_gemma.py:43 | the loaded mutations are exactly those listed in some record |
| `Corpus.Documents` | rag-llms/rag_llm_gemma.py:45-49 | definition of the `documents` comprehension: the loaded mutations, in order, whose owner in the map is not ignored (characterized by `DocumentsCount` and `DocumentsFollowOwners`) |
| `Corpus.KeepOwned` | rag-llms/rag_llm_gemma.py:45-49 | the same filter stated on the corpus: the mutations, in order, whose last owner exists and is not ignored |
| `Corpus.DocumentsCount` | rag-llms/rag_llm_gemma.py:45-49 | the `documents` filter keeps every occurrence of each mutation whose owner is not ignored and no occurrence of the others |
| `Corpus.DocumentsFollowOwners` | rag-llms/rag_llm_gemma.py:45-49 | filtering through the owner map equals filtering each mutation, in place and in order, by its last owner |
| `Corpus.LoadDocuments` | rag-llms/rag_llm_gemma.py:18-49 | the documents are the loaded mutations, in the loader's order, with those whose last owner is ignored removed (`KeepOwned`); every document's last owner exists and is not ignored; documents keep each such mutation as often as the corpus lists it; a mutation whose last owner is ignored is absent |
| `Corpus.SharedMutationSurvivesIgnore` | rag-llms/rag_llm_gemma.py:45-48 | a mutation listed under an ignored prompt and again under a later non-ignored one stays in the documents twice |
| `Driver.Outer` | rag-llms/rag_llm_gemma.py:134-158 | definition of `OUTER_RANGE` for a run: fixed once from the number of documents, never from the reassigned `N` |
| `Driver.SupportedFile` | rag-llms/rag_llm_gemma.py:138-143 | definition of the extension test: the file name ends in `.csv` or `.json` |
| `Driver.IgnoredRow` | rag-llms/rag_llm_gemma.py:183-185 | definition of an ignored row: a string in `PROMPTS_TO_IGNORE`, or a record whose `Prompts` field is |
| `Driver.IgnoreCheck` | rag-llms/rag_llm_gemma.py:183-186 | definition of the ignore test: a record without `Prompts` raises `KeyError` (`MissingPromptsField`), any other row gives whether it is ignored (`IgnoredRow`) |
| `Driver.StepRow` | rag-llms/rag_llm_gemma.py:182-196 | definition of one test row: skipped unless not ignored and tested (or the scheme is disabled); otherwise answered, normalized, recorded and counted (characterized by `RunProperties.StepRowEffect`) |
| `Driver.Classify` | rag-llms/rag_llm_gemma.py:191-195 | definition of an output entry: a record with `Classification` set to the verdict, or the pair of the string and the verdict |
| `Driver.Counted` | rag-llms/rag_llm_gemma.py:196 | definition of the tally update: the verdict's count goes up by one, the other stays |
| `Driver.WalkRows` | rag-llms/rag_llm_gemma.py:182-196 | definition of a fold's test loop from a row on, stopping at the first error (characterized by `WalkRowsFollowsSelection`, `WalkRowsErrors`) |
| `Driver.RunFolds` | rag-llms/rag_llm_gemma.py:163-196 | definition of the fold loop from a fold on, with the size `N` the fold's split reads: division by zero when a document must be tested by a zero divisor, else the fold's training split and test loop, then the next fold with `N` equal to the number of test rows |
| `Driver.Run` | rag-llms/rag_llm_gemma.py:133-196 | definition of a whole run: `File type not supported` for other extensions, else all folds from an empty tally with `N` the number of documents (characterized by the lemmas of `RunProperties`) |
| `Driver.BuildTraining` | rag-llms/rag_llm_gemma.py:168-173 | the training loop of a fold fails by division by zero when there is a document and the predicate's divisor is zero; otherwise it yields the documents its predicate does not test, in order (`TrainingSplit`) |
| `Driver.EvaluateFold` | rag-llms/rag_llm_gemma.py:179-196 | the test loop of a fold, with `N` equal to the number of test rows, returns exactly what `WalkRows` computes from the state before the fold |
| `Driver.RunWithCrossValidation` | rag-llms/rag_llm_gemma.py:115-200 | the imperative driver, whose scheme defaults to SimpleFifths, with `N` reassigned inside the fold loop, returns exactly what `Run` computes: the error, or the entries, the tally and the unread human input |
| `RunProperties.Selected` | rag-llms/rag_llm_gemma.py:183-186 | definition of the row-selection test: the row is not ignored, and the fold tests it or the scheme is disabled |
| `RunProperties.SelectedFrom` | rag-llms/rag_llm_gemma.py:182-186 | the rows a fold evaluates are in strictly increasing row order, not ignored, and tested by the fold or taken because the scheme is disabled |
| `RunProperties.ScheduleFrom` | rag-llms/rag_llm_gemma.py:163-186 | the rows all folds evaluate are test rows and none is ignored |
| `RunProperties.RunFollowsSchedule` | rag-llms/rag_llm_gemma.py:182-196 | a successful run's output has one entry per evaluated row, fold after fold, each the row with classification ACCEPT or REJECT; no ignored row gives an entry; which verdict each entry carries is the one `StepRow` computes for that fold (`StepRowRecordsVerdict`) |
| `RunProperties.StepRowRecordsVerdict` | rag-llms/rag_llm_gemma.py:183-196 | a selected row records the verdict `Normalize` gives the pipeline's answer to its question on the fold's training list, counts it and consumes the human lines it read; an unselected row changes nothing |
| `RunProperties.WalkRowsFollowsSelection` | rag-llms/rag_llm_gemma.py:182-195 | one fold appends to the output exactly the entries of the rows it evaluates, in order |
| `RunProperties.RunFoldsFollowsSchedule` | rag-llms/rag_llm_gemma.py:163-195 | the remaining folds append exactly the entries of the rows they evaluate |
| `RunProperties.TestFold` | rag-llms/rag_llm_gemma.py:149-163 | every test row has one fold below `OUTER_RANGE` that evaluates it (fold 0 under Disabled), unless it is ignored; every other fold skips it |
| `RunProperties.OccurrencesConcat` | rag-llms/rag_llm_gemma.py:163 | helper of `EveryRowTestedOnce`: occurrence counts of a row add up over concatenated lists, which is how the per-fold counts of the fold loop are summed |
| `RunProperties.SelectedFromCount` | rag-llms/rag_llm_gemma.py:182-186 | a fold evaluates a row once if it selects it and never otherwise |
| `RunProperties.ScheduleFromCount` | rag-llms/rag_llm_gemma.py:163-186 | the folds from i on evaluate a non-ignored row once when its fold is among them, never otherwise |
| `RunProperties.EveryRowTestedOnce` | rag-llms/rag_llm_gemma.py:163-186 | when at least one fold runs, over all folds each non-ignored test row is evaluated exactly once and each ignored row never |
| `RunProperties.JackknifedSmallCorpusRunsNoFold` | rag-llms/rag_llm_gemma.py:157-163 | JackknifedBasePrompts on fewer than 5 documents runs no fold: no entries, tally {ACCEPT: 0, REJECT: 0} |
| `RunProperties.CountClassTotal` | rag-llms/rag_llm_gemma.py:135 | helper of `TallyMatchesOutput`: when every entry is ACCEPT or REJECT, the per-class counts of the entries add up to their number, so the two keys of `responses` sum to the number of entries |
| `RunProperties.StepRowKeepsConsistent` | rag-llms/rag_llm_gemma.py:190-196 | recording one row counts its own classification |
| `RunProperties.WalkRowsKeepsConsistent` | rag-llms/rag_llm_gemma.py:182-196 | a fold keeps the tally equal to the per-class counts of the entries |
| `RunProperties.RunFoldsKeepsConsistent` | rag-llms/rag_llm_gemma.py:163-196 | all folds keep the tally equal to the per-class counts of the entries |
| `RunProperties.TallyMatchesOutput` | rag-llms/rag_llm_gemma.py:190-196 | after a successful run, each entry's classification (its `Classification` field or the pair's second element) is ACCEPT or REJECT, `responses` counts exactly the entries of each class, and ACCEPT + REJECT equals the number of entries |
| `RunProperties.WalkRowsErrors` | rag-llms/rag_llm_gemma.py:183-190 | a fold fails only on a record without `Prompts` or on the human input running out (among the errors the model represents; pipeline exceptions are not modelled) |
| `RunProperties.RunFoldsErrors` | rag-llms/rag_llm_gemma.py:163-190 | the folds fail only by division by zero, a record without `Prompts`, or the human input running out; under EveryFifth and Disabled never by division by zero (among the errors the model represents; pipeline exceptions are not modelled) |
| `RunProperties.UnsupportedFileRejected` | rag-llms/rag_llm_gemma.py:137-143 | the run raises "File type not supported" exactly when the file name ends in neither `.csv` nor `.json` |
| `RunProperties.EmptyTestFileDividesByZero` | rag-llms/rag_llm_gemma.py:169-181 | an empty test file fails by division by zero in fold 1, under SimpleFifths with documents and under JackknifedBasePrompts with at least 10 documents |
| `RunProperties.LaterFoldsKeepDocumentsPastTestFileSize` | rag-llms/rag_llm_gemma.py:169-181 | after fold 0 the split uses the test file's size, so documents at indices at or past it stay in training |
| `RunProperties.WalkRowsAllAccepted` | rag-llms/rag_llm_gemma.py:187-195 | with a pipeline that always answers LET THROUGH, a fold succeeds, reads no human input and records only ACCEPT |
| `RunProperties.RunFoldsAllAccepted` | rag-llms/rag_llm_gemma.py:163-195 | the same for all remaining folds, when no split divides by zero |
| `RunProperties.DisabledAcceptingPipeline` | rag-llms/rag_llm_gemma.py:146-196 | under Disabled, with a pipeline that always answers LET THROUGH, the run succeeds, asks the human nothing, and tallies {ACCEPT: number of entries, REJECT: 0} |
| `RunProperties.NoRejectCounted` | rag-llms/rag_llm_gemma.py:196 | output with only ACCEPT entries counts no REJECT |

## Left out

- The language model, embeddings, `InMemoryVectorStore`, the retrieve/generate graph and the prompt template (lines 25-30, 59-91) are one opaque function from the training list and the question to the answer text. Because it is a function, the model's sampling randomness (temperature 0.5) is not modelled: equal inputs give equal answers.
- The pipeline and `to_prompt_text` are total functions in the model. In the source, `graph.invoke` and `to_prompt_text` (line 187) can raise (the model server is down, the network fails, the vector store errors, the caller's function raises); such an exception aborts the run before the output file is written. The model does not represent these failures.
- Upper-casing covers ASCII letters only; Unicode case mappings of `str.upper` are not modelled.
- The float divisions of the fold predicates are replaced by exact integer floor division, and float rounding is not modelled. It matters in two ways:
  - An index equal to the size can land in the last fold. For SimpleFifths with 1, 2, 4, 8, 9, 11, … test rows, `1 // 0.2` and `2 // 0.4` are 4.0, so in floats fold 4 tests the document at that index. The model never tests it (`IndicesPastSizeNeverTested`, `LaterFoldsKeepDocumentsPastTestFileSize`).
  - Indices below the size can change fold. Under JackknifedBasePrompts, the divisor `N / OUTER_RANGE` is rounded, so ordinary indices can move to a neighbouring fold. For 34 documents (`OUTER_RANGE` 6), `17 // (34 / 6)` is 2.0 in floats, while the model puts index 17 in fold 3.
- File reading and parsing (JSON, CSV, `JSONLoader`) are left out. The mutation corpus is a sequence of records holding a base prompt and its mutations; the test file is its parsed rows. The test file is assumed to read the same in every fold. JSON rows that are neither strings nor objects, and non-string field values, are not modelled. Mutation-corpus records are assumed to have `Prompts` and `Mutations`.
- Writing `out_file` with `json.dump` is replaced by returning the entries.
- The row dictionary that is updated in place with `Classification` is modelled as a copy with the field set. The source re-reads the file every fold, so no entry is shared between folds, and nothing observable is lost.
- The scenario description and line identifier of the corpus records, and `metadata_func`, are not part of this model: nothing in the core reads them.
- `print`/`datetime` logging, the text of the human prompt, the system prompt file and the module-level driver calls (lines 50-56, 164-166, 176-178, 203-219) are left out.
- without_rag/manual_classification_helper.py (a tkinter GUI) and without_rag/refusal_classifer.py (a `transformers` pipeline over files) are not part of this model.
- Blocking on a human who never answers is not modelled; a finite input sequence that runs out ends in the error that `input()` raises at end of input.
