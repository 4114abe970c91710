/**
 * What a run guarantees: which rows produce an output entry and in which
 * order, that each non-ignored row is tested exactly once over all folds, that
 * the tally agrees with the entries, and when a run fails.
 */
module RunProperties {
  import opened Outcomes
  import opened Text
  import opened Normalizer
  import opened Folds
  import opened Driver

  // ---------------------------------------------------------------------
  // Which rows each fold evaluates

  /** Row j is evaluated in fold i: not ignored, and tested or the scheme is disabled. */
  predicate Selected(c: Config, i: nat, j: nat)
    requires i < Outer(c) && j < |c.rows|
  {
    !IgnoredRow(c.ignore, c.rows[j]) && (Tested(c.scheme, Outer(c), |c.rows|, i, j) || DisabledFlag(c.scheme))
  }

  /** The rows fold i evaluates from row j on, in order. */
  function SelectedFrom(c: Config, i: nat, j: nat): (r: seq<nat>)
    requires i < Outer(c) && j <= |c.rows|
    ensures forall k :: 0 <= k < |r| ==> j <= r[k] < |c.rows| && Selected(c, i, r[k])
    ensures forall a, b :: 0 <= a < b < |r| ==> r[a] < r[b]
    decreases |c.rows| - j
  {
    if j == |c.rows| then []
    else (if Selected(c, i, j) then [j] else []) + SelectedFrom(c, i, j + 1)
  }

  /** The rows the folds from i on evaluate, fold after fold; no ignored row is among them. */
  function ScheduleFrom(c: Config, i: nat): (r: seq<nat>)
    ensures forall k :: 0 <= k < |r| ==> r[k] < |c.rows| && !IgnoredRow(c.ignore, c.rows[r[k]])
    decreases Outer(c) - i
  {
    if i >= Outer(c) then [] else SelectedFrom(c, i, 0) + ScheduleFrom(c, i + 1)
  }

  function Schedule(c: Config): seq<nat>
  {
    ScheduleFrom(c, 0)
  }

  /** rec is the output entry of row, with either verdict. */
  predicate IsRecordOf(row: Row, rec: OutRecord)
  {
    rec == Classify(row, Accept) || rec == Classify(row, Reject)
  }

  /** The entries recs are, one for one, entries of the rows at indices idx. */
  predicate Matches(c: Config, recs: seq<OutRecord>, idx: seq<nat>)
  {
    |recs| == |idx| && forall k :: 0 <= k < |idx| ==> idx[k] < |c.rows| && IsRecordOf(c.rows[idx[k]], recs[k])
  }

  /** Two extensions in a row, each matching its indices, make one extension matching both. */
  lemma ChainExtensions(c: Config, s0: seq<OutRecord>, s1: seq<OutRecord>, out: seq<OutRecord>, i0: seq<nat>, i1: seq<nat>)
    requires |s0| <= |s1| && s1[..|s0|] == s0 && Matches(c, s1[|s0|..], i0)
    requires |s1| <= |out| && out[..|s1|] == s1 && Matches(c, out[|s1|..], i1)
    ensures |s0| <= |out| && out[..|s0|] == s0 && Matches(c, out[|s0|..], i0 + i1)
  {
    assert out[|s0|..] == s1[|s0|..] + out[|s1|..];
  }

  /** One row's step appends the row's entry when the fold selects it, and nothing otherwise. */
  lemma StepRowEffect(c: Config, i: nat, training: seq<string>, j: nat, st: RunState)
    requires i < Outer(c) && j < |c.rows| && StepRow(c, i, training, j, st).Ok?
    ensures var out := StepRow(c, i, training, j, st).value.toOutput;
      |st.toOutput| <= |out| && out[..|st.toOutput|] == st.toOutput &&
      Matches(c, out[|st.toOutput|..], if Selected(c, i, j) then [j] else [])
  {
    var out := StepRow(c, i, training, j, st).value.toOutput;
    if Selected(c, i, j) {
      assert out[|st.toOutput|..] == [out[|st.toOutput|]];
    } else {
      assert out[|st.toOutput|..] == [];
    }
  }

  /**
   * The verdict a selected row records is the normalized answer of the
   * pipeline to that row's question on the fold's training list; a row the
   * fold does not select leaves the state as it was.
   */
  lemma StepRowRecordsVerdict(c: Config, i: nat, training: seq<string>, j: nat, st: RunState)
    requires i < Outer(c) && j < |c.rows| && StepRow(c, i, training, j, st).Ok?
    ensures Selected(c, i, j) ==>
      var n := Normalize(c.rag(training, c.toPromptText(c.rows[j])), st.human);
      n.Ok? && StepRow(c, i, training, j, st).value ==
        RunState(st.toOutput + [Classify(c.rows[j], n.value.0)], Counted(st.responses, n.value.0), st.human[n.value.1..])
    ensures !Selected(c, i, j) ==> StepRow(c, i, training, j, st) == Ok(st)
  {
  }

  lemma WalkRowsFollowsSelection(c: Config, i: nat, training: seq<string>, j: nat, st: RunState)
    requires i < Outer(c) && j <= |c.rows| && WalkRows(c, i, training, j, st).Ok?
    ensures var out := WalkRows(c, i, training, j, st).value.toOutput;
      |st.toOutput| <= |out| && out[..|st.toOutput|] == st.toOutput &&
      Matches(c, out[|st.toOutput|..], SelectedFrom(c, i, j))
    decreases |c.rows| - j
  {
    if j < |c.rows| {
      var st1 := StepRow(c, i, training, j, st).value;
      StepRowEffect(c, i, training, j, st);
      WalkRowsFollowsSelection(c, i, training, j + 1, st1);
      ChainExtensions(c, st.toOutput, st1.toOutput, WalkRows(c, i, training, j, st).value.toOutput,
        if Selected(c, i, j) then [j] else [], SelectedFrom(c, i, j + 1));
    } else {
      assert st.toOutput[|st.toOutput|..] == [];
    }
  }

  lemma RunFoldsFollowsSchedule(c: Config, i: nat, n: nat, st: RunState)
    requires RunFolds(c, i, n, st).Ok?
    ensures var out := RunFolds(c, i, n, st).value.toOutput;
      |st.toOutput| <= |out| && out[..|st.toOutput|] == st.toOutput &&
      Matches(c, out[|st.toOutput|..], ScheduleFrom(c, i))
    decreases Outer(c) - i
  {
    if i < Outer(c) {
      var training := TrainingSplit(c.scheme, Outer(c), n, i, c.documents);
      WalkRowsFollowsSelection(c, i, training, 0, st);
      var st1 := WalkRows(c, i, training, 0, st).value;
      RunFoldsFollowsSchedule(c, i + 1, |c.rows|, st1);
      ChainExtensions(c, st.toOutput, st1.toOutput, RunFolds(c, i, n, st).value.toOutput,
        SelectedFrom(c, i, 0), ScheduleFrom(c, i + 1));
    } else {
      assert st.toOutput[|st.toOutput|..] == [];
    }
  }

  /**
   * A successful run's output holds one entry per evaluated row in fold
   * order, each the row classified ACCEPT or REJECT; an ignored row gives none.
   */
  lemma RunFollowsSchedule(filename: string, c: Config, human: seq<string>)
    requires Run(filename, c, human).Ok?
    ensures Matches(c, Run(filename, c, human).value.toOutput, Schedule(c))
    ensures forall k :: 0 <= k < |Schedule(c)| ==> !IgnoredRow(c.ignore, c.rows[Schedule(c)[k]])
  {
    RunFoldsFollowsSchedule(c, 0, |c.documents|, RunState([], Tally(0, 0), human));
  }

  // ---------------------------------------------------------------------
  // Every non-ignored row is tested exactly once

  /** The one fold that evaluates row x: all folds but this one skip it. */
  function TestFold(c: Config, x: nat): (f: nat)
    requires Outer(c) > 0 && x < |c.rows|
    ensures f < Outer(c)
    ensures forall i: nat :: i < Outer(c) ==> (Selected(c, i, x) <==> !IgnoredRow(c.ignore, c.rows[x]) && i == f)
  {
    if c.scheme == Disabled then 0 else FoldOf(c.scheme, Outer(c), |c.rows|, x)
  }

  /** How many times x occurs in s. */
  function Occurrences(s: seq<nat>, x: nat): nat
  {
    if |s| == 0 then 0 else (if s[0] == x then 1 else 0) + Occurrences(s[1..], x)
  }

  lemma {:induction false} OccurrencesConcat(a: seq<nat>, b: seq<nat>, x: nat)
    ensures Occurrences(a + b, x) == Occurrences(a, x) + Occurrences(b, x)
  {
    if |a| > 0 {
      assert (a + b)[1..] == a[1..] + b;
      OccurrencesConcat(a[1..], b, x);
    } else {
      assert a + b == b;
    }
  }

  lemma {:induction false} SelectedFromCount(c: Config, i: nat, j: nat, x: nat)
    requires i < Outer(c) && j <= |c.rows| && x < |c.rows|
    ensures Occurrences(SelectedFrom(c, i, j), x) == if j <= x && Selected(c, i, x) then 1 else 0
    decreases |c.rows| - j
  {
    if j < |c.rows| {
      var rest := SelectedFrom(c, i, j + 1);
      SelectedFromCount(c, i, j + 1, x);
      if Selected(c, i, j) {
        assert SelectedFrom(c, i, j) == [j] + rest;
        assert ([j] + rest)[1..] == rest;
      } else {
        assert SelectedFrom(c, i, j) == rest;
      }
    }
  }

  lemma {:induction false} ScheduleFromCount(c: Config, i: nat, x: nat)
    requires Outer(c) > 0 && x < |c.rows|
    ensures Occurrences(ScheduleFrom(c, i), x) == if !IgnoredRow(c.ignore, c.rows[x]) && i <= TestFold(c, x) then 1 else 0
    decreases Outer(c) - i
  {
    if i < Outer(c) {
      var f := TestFold(c, x);
      SelectedFromCount(c, i, 0, x);
      ScheduleFromCount(c, i + 1, x);
      OccurrencesConcat(SelectedFrom(c, i, 0), ScheduleFrom(c, i + 1), x);
      assert Selected(c, i, x) <==> !IgnoredRow(c.ignore, c.rows[x]) && i == f;
    }
  }

  /**
   * Over all folds of a scheme that runs at least one fold, each non-ignored
   * row is evaluated exactly once and each ignored row never.
   */
  lemma EveryRowTestedOnce(c: Config)
    requires Outer(c) > 0
    ensures forall x: nat :: x < |c.rows| ==> Occurrences(Schedule(c), x) == if IgnoredRow(c.ignore, c.rows[x]) then 0 else 1
  {
    forall x: nat | x < |c.rows|
      ensures Occurrences(Schedule(c), x) == if IgnoredRow(c.ignore, c.rows[x]) then 0 else 1
    {
      ScheduleFromCount(c, 0, x);
    }
  }

  /** JackknifedBasePrompts on fewer than five documents runs no fold at all. */
  lemma JackknifedSmallCorpusRunsNoFold(filename: string, c: Config, human: seq<string>)
    requires SupportedFile(filename) && c.scheme == JackknifedBasePrompts && |c.documents| < 5
    ensures Run(filename, c, human) == Ok(RunState([], Tally(0, 0), human))
  {
  }

  // ---------------------------------------------------------------------
  // The tally agrees with the output

  /** The classification an entry carries: its "Classification" field, or the pair's second element. */
  function ClassOf(rec: OutRecord): string
  {
    match rec
    case Classified(fields) => if "Classification" in fields then fields["Classification"] else ""
    case Pair(_, classification) => classification
  }

  /** The number of entries classified as cl. */
  function CountClass(out: seq<OutRecord>, cl: string): nat
  {
    if |out| == 0 then 0
    else CountClass(out[..|out| - 1], cl) + (if ClassOf(out[|out| - 1]) == cl then 1 else 0)
  }

  /** Every entry is ACCEPT or REJECT and the tally counts exactly the entries of each kind. */
  predicate Consistent(st: RunState)
  {
    st.responses.accept == CountClass(st.toOutput, "ACCEPT") &&
    st.responses.reject == CountClass(st.toOutput, "REJECT") &&
    forall k :: 0 <= k < |st.toOutput| ==> ClassOf(st.toOutput[k]) in {"ACCEPT", "REJECT"}
  }

  lemma {:induction false} CountClassTotal(out: seq<OutRecord>)
    requires forall k :: 0 <= k < |out| ==> ClassOf(out[k]) in {"ACCEPT", "REJECT"}
    ensures CountClass(out, "ACCEPT") + CountClass(out, "REJECT") == |out|
  {
    if |out| > 0 {
      CountClassTotal(out[..|out| - 1]);
    }
  }

  lemma StepRowKeepsConsistent(c: Config, i: nat, training: seq<string>, j: nat, st: RunState)
    requires i < Outer(c) && j < |c.rows| && Consistent(st) && StepRow(c, i, training, j, st).Ok?
    ensures Consistent(StepRow(c, i, training, j, st).value)
  {
    var st1 := StepRow(c, i, training, j, st).value;
    if st1 != st {
      assert st1.toOutput[..|st.toOutput|] == st.toOutput;
    }
  }

  lemma WalkRowsKeepsConsistent(c: Config, i: nat, training: seq<string>, j: nat, st: RunState)
    requires i < Outer(c) && j <= |c.rows| && Consistent(st) && WalkRows(c, i, training, j, st).Ok?
    ensures Consistent(WalkRows(c, i, training, j, st).value)
    decreases |c.rows| - j
  {
    if j < |c.rows| {
      StepRowKeepsConsistent(c, i, training, j, st);
      WalkRowsKeepsConsistent(c, i, training, j + 1, StepRow(c, i, training, j, st).value);
    }
  }

  lemma RunFoldsKeepsConsistent(c: Config, i: nat, n: nat, st: RunState)
    requires Consistent(st) && RunFolds(c, i, n, st).Ok?
    ensures Consistent(RunFolds(c, i, n, st).value)
    decreases Outer(c) - i
  {
    if i < Outer(c) {
      var training := TrainingSplit(c.scheme, Outer(c), n, i, c.documents);
      WalkRowsKeepsConsistent(c, i, training, 0, st);
      RunFoldsKeepsConsistent(c, i + 1, |c.rows|, WalkRows(c, i, training, 0, st).value);
    }
  }

  /**
   * After a successful run, `responses` counts each entry's own
   * classification, every classification is ACCEPT or REJECT, and the two
   * counts add up to the number of entries.
   */
  lemma TallyMatchesOutput(filename: string, c: Config, human: seq<string>)
    requires Run(filename, c, human).Ok?
    ensures Consistent(Run(filename, c, human).value)
    ensures var st := Run(filename, c, human).value;
      st.responses.accept + st.responses.reject == |st.toOutput|
  {
    RunFoldsKeepsConsistent(c, 0, |c.documents|, RunState([], Tally(0, 0), human));
    CountClassTotal(Run(filename, c, human).value.toOutput);
  }

  // ---------------------------------------------------------------------
  // How a run fails

  lemma WalkRowsErrors(c: Config, i: nat, training: seq<string>, j: nat, st: RunState)
    requires i < Outer(c) && j <= |c.rows| && WalkRows(c, i, training, j, st).Err?
    ensures WalkRows(c, i, training, j, st).error in {MissingPromptsField, EndOfInput}
    decreases |c.rows| - j
  {
    if StepRow(c, i, training, j, st).Ok? {
      WalkRowsErrors(c, i, training, j + 1, StepRow(c, i, training, j, st).value);
    }
  }

  lemma RunFoldsErrors(c: Config, i: nat, n: nat, st: RunState)
    requires RunFolds(c, i, n, st).Err?
    ensures RunFolds(c, i, n, st).error in {ZeroDivision, MissingPromptsField, EndOfInput}
    ensures c.scheme == EveryFifth || c.scheme == Disabled ==> RunFolds(c, i, n, st).error != ZeroDivision
    decreases Outer(c) - i
  {
    if |c.documents| == 0 || DivisorOk(c.scheme, Outer(c), n) {
      var training := TrainingSplit(c.scheme, Outer(c), n, i, c.documents);
      if WalkRows(c, i, training, 0, st).Err? {
        WalkRowsErrors(c, i, training, 0, st);
      } else {
        RunFoldsErrors(c, i + 1, |c.rows|, WalkRows(c, i, training, 0, st).value);
      }
    }
  }

  /** The run raises "File type not supported" exactly when the name ends in neither .csv nor .json. */
  lemma UnsupportedFileRejected(filename: string, c: Config, human: seq<string>)
    ensures Run(filename, c, human) == Err(UnsupportedFileType) <==> !SupportedFile(filename)
  {
    if SupportedFile(filename) && Run(filename, c, human).Err? {
      RunFoldsErrors(c, 0, |c.documents|, RunState([], Tally(0, 0), human));
    }
  }

  /**
   * The reassigned N: with an empty test file, fold 1's training split of a
   * non-empty corpus divides by zero under SimpleFifths, and under
   * JackknifedBasePrompts once the corpus is large enough for a fold 1.
   */
  lemma EmptyTestFileDividesByZero(filename: string, c: Config, human: seq<string>)
    requires SupportedFile(filename) && c.rows == []
    requires (c.scheme == SimpleFifths && |c.documents| > 0) || (c.scheme == JackknifedBasePrompts && |c.documents| >= 10)
    ensures Run(filename, c, human) == Err(ZeroDivision)
  {
    var st := RunState([], Tally(0, 0), human);
    var training := TrainingSplit(c.scheme, Outer(c), |c.documents|, 0, c.documents);
    assert WalkRows(c, 0, training, 0, st) == Ok(st);
    assert RunFolds(c, 1, 0, st) == Err(ZeroDivision);
  }

  /**
   * The reassigned N: from fold 1 on, the training split reads the number of
   * test rows, so a document whose index is at least that number is never
   * held out, whatever its block in the corpus.
   */
  lemma LaterFoldsKeepDocumentsPastTestFileSize(c: Config, i: nat, j: nat)
    requires c.scheme == SimpleFifths || c.scheme == JackknifedBasePrompts
    requires 1 <= i < Outer(c) && 0 < |c.rows| <= j < |c.documents|
    ensures c.documents[j] in TrainingSplit(c.scheme, Outer(c), |c.rows|, i, c.documents)
  {
    var s, outer, n := c.scheme, Outer(c), |c.rows|;
    IndicesPastSizeNeverTested(s, outer, n, i, j);
    KeptIndicesExact(s, outer, n, i, |c.documents|);
    TrainingSplitSelects(s, outer, n, i, c.documents);
    var ks := KeptIndices(s, outer, n, i, |c.documents|);
    var k :| 0 <= k < |ks| && ks[k] == j;
    assert TrainingSplit(s, outer, n, i, c.documents)[k] == c.documents[j];
  }

  // ---------------------------------------------------------------------
  // A pipeline that always lets prompts through

  /** Every answer of the pipeline says LET THROUGH and never REJECT. */
  ghost predicate AlwaysLetThrough(rag: (seq<string>, string) -> string)
  {
    forall tr, q :: !Contains(Upper(rag(tr, q)), "REJECT") && Contains(Upper(rag(tr, q)), "LET THROUGH")
  }

  predicate AllHavePrompts(rows: seq<Row>)
  {
    forall k :: 0 <= k < |rows| && rows[k].Structured? ==> "Prompts" in rows[k].fields
  }

  predicate AllAccepted(out: seq<OutRecord>)
  {
    forall k :: 0 <= k < |out| ==> ClassOf(out[k]) == "ACCEPT"
  }

  lemma WalkRowsAllAccepted(c: Config, i: nat, training: seq<string>, j: nat, st: RunState)
    requires i < Outer(c) && j <= |c.rows|
    requires AlwaysLetThrough(c.rag) && AllHavePrompts(c.rows) && AllAccepted(st.toOutput)
    ensures WalkRows(c, i, training, j, st).Ok?
    ensures WalkRows(c, i, training, j, st).value.human == st.human
    ensures AllAccepted(WalkRows(c, i, training, j, st).value.toOutput)
    decreases |c.rows| - j
  {
    if j < |c.rows| {
      var q := c.toPromptText(c.rows[j]);
      assert !Contains(Upper(c.rag(training, q)), "REJECT") && Contains(Upper(c.rag(training, q)), "LET THROUGH");
      var st1 := StepRow(c, i, training, j, st).value;
      assert st1.human == st.human;
      WalkRowsAllAccepted(c, i, training, j + 1, st1);
    }
  }

  lemma RunFoldsAllAccepted(c: Config, i: nat, n: nat, st: RunState)
    requires AlwaysLetThrough(c.rag) && AllHavePrompts(c.rows) && AllAccepted(st.toOutput)
    requires |c.documents| > 0 && i < Outer(c) ==> DivisorOk(c.scheme, Outer(c), n)
    requires |c.documents| > 0 && i + 1 < Outer(c) ==> DivisorOk(c.scheme, Outer(c), |c.rows|)
    ensures RunFolds(c, i, n, st).Ok?
    ensures RunFolds(c, i, n, st).value.human == st.human
    ensures AllAccepted(RunFolds(c, i, n, st).value.toOutput)
    decreases Outer(c) - i
  {
    if i < Outer(c) {
      var training := TrainingSplit(c.scheme, Outer(c), n, i, c.documents);
      WalkRowsAllAccepted(c, i, training, 0, st);
      RunFoldsAllAccepted(c, i + 1, |c.rows|, WalkRows(c, i, training, 0, st).value);
    }
  }

  /**
   * Under Disabled, a pipeline that always answers LET THROUGH gives a run
   * that succeeds without asking the human, classifies every entry ACCEPT and
   * tallies {ACCEPT: number of entries, REJECT: 0}.
   */
  lemma DisabledAcceptingPipeline(filename: string, c: Config, human: seq<string>)
    requires SupportedFile(filename) && c.scheme == Disabled
    requires AlwaysLetThrough(c.rag) && AllHavePrompts(c.rows)
    ensures Run(filename, c, human).Ok?
    ensures var st := Run(filename, c, human).value;
      st.human == human && AllAccepted(st.toOutput) && st.responses == Tally(|st.toOutput|, 0)
  {
    RunFoldsAllAccepted(c, 0, |c.documents|, RunState([], Tally(0, 0), human));
    TallyMatchesOutput(filename, c, human);
    var st := Run(filename, c, human).value;
    CountClassTotal(st.toOutput);
    NoRejectCounted(st.toOutput);
  }

  lemma {:induction false} NoRejectCounted(out: seq<OutRecord>)
    requires AllAccepted(out)
    ensures CountClass(out, "REJECT") == 0
  {
    if |out| > 0 {
      NoRejectCounted(out[..|out| - 1]);
    }
  }
}
