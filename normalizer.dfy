/**
 * The decision normalizer: free model text becomes ACCEPT or REJECT, with a
 * human asked to classify text that carries neither marker.
 * The human is modelled as the sequence of lines they would type.
 */
module Normalizer {
  import opened Outcomes
  import opened Text

  datatype Verdict = Accept | Reject {
    /** The string the harness records and counts for this verdict. */
    function Name(): string
    {
      match this
      case Accept => "ACCEPT"
      case Reject => "REJECT"
    }
  }

  /** The only two answers the human prompt accepts; the match is exact and case-sensitive. */
  predicate IsToken(s: string)
  {
    s == "LT" || s == "R"
  }

  function TokenVerdict(s: string): Verdict
    requires IsToken(s)
  {
    if s == "LT" then Accept else Reject
  }

  /** Neither marker occurs in the upper-cased output, so a human must decide. */
  predicate Ambiguous(output: string)
  {
    !Contains(Upper(output), "REJECT") && !Contains(Upper(output), "LET THROUGH")
  }

  /** The position of the first valid token at or after `from`, if any. */
  function FirstToken(inputs: seq<string>, from: nat): (r: Option<nat>)
    requires from <= |inputs|
    decreases |inputs| - from
    ensures r.Some? ==> from <= r.value < |inputs| && IsToken(inputs[r.value])
    ensures r.Some? ==> forall k :: from <= k < r.value ==> !IsToken(inputs[k])
    ensures r.None? <==> forall k :: from <= k < |inputs| ==> !IsToken(inputs[k])
  {
    if from == |inputs| then None
    else if IsToken(inputs[from]) then Some(from)
    else FirstToken(inputs, from + 1)
  }

  /** A token that every earlier input fails to be is the first token. */
  lemma {:induction false} FirstTokenAt(inputs: seq<string>, from: nat, j: nat)
    requires from <= j < |inputs| && IsToken(inputs[j])
    requires forall k :: from <= k < j ==> !IsToken(inputs[k])
    ensures FirstToken(inputs, from) == Some(j)
    decreases j - from
  {
    if from < j {
      FirstTokenAt(inputs, from + 1, j);
    }
  }

  /**
   * What `llm_output_to_accept_reject` decides for `output`, given the human's
   * lines: the verdict and the number of lines read.
   */
  function Normalize(output: string, inputs: seq<string>): (r: Result<(Verdict, nat)>)
    ensures r.Ok? ==> r.value.1 <= |inputs|
    ensures r.Err? ==> r.error == EndOfInput
    // REJECT is tested first, so it wins when both markers occur
    ensures Contains(Upper(output), "REJECT") ==> r == Ok((Reject, 0))
    ensures !Contains(Upper(output), "REJECT") && Contains(Upper(output), "LET THROUGH") ==> r == Ok((Accept, 0))
    // otherwise the first exact LT or R decides, every earlier line is skipped
    ensures Ambiguous(output) ==> (r.Ok? <==> exists k :: 0 <= k < |inputs| && IsToken(inputs[k]))
    ensures Ambiguous(output) && r.Ok? ==>
      var used := r.value.1;
      0 < used && IsToken(inputs[used - 1]) && r.value.0 == TokenVerdict(inputs[used - 1]) &&
      forall k :: 0 <= k < used - 1 ==> !IsToken(inputs[k])
  {
    var up := Upper(output);
    if Contains(up, "REJECT") then Ok((Reject, 0))
    else if Contains(up, "LET THROUGH") then Ok((Accept, 0))
    else
      match FirstToken(inputs, 0)
      case None => Err(EndOfInput)
      case Some(k) => Ok((TokenVerdict(inputs[k]), k + 1))
  }

  /** A marker written in any casing is found: "reject" decides REJECT, whatever the human would type. */
  lemma RejectInAnyCase(output: string, marker: string, inputs: seq<string>)
    requires Contains(output, marker) && Upper(marker) == "REJECT"
    ensures Normalize(output, inputs) == Ok((Reject, 0))
  {
    ContainsUpper(output, marker);
  }

  /**
   * `llm_output_to_accept_reject`: the marker tests on the upper-cased output,
   * then the loop that reads human lines until one is exactly LT or R.
   * The human input running out is the EOFError `input()` raises.
   */
  method LlmOutputToAcceptReject(output: string, inputs: seq<string>) returns (r: Result<Verdict>, used: nat)
    ensures used <= |inputs|
    ensures r.Ok? ==> Normalize(output, inputs) == Ok((r.value, used))
    ensures r.Err? ==> Normalize(output, inputs) == Err(EndOfInput) && r.error == EndOfInput && used == |inputs|
  {
    if Contains(Upper(output), "REJECT") {
      return Ok(Reject), 0;
    } else if Contains(Upper(output), "LET THROUGH") {
      return Ok(Accept), 0;
    }
    var result: Option<string> := None;
    used := 0;
    while result != Some("LT") && result != Some("R")
      invariant used <= |inputs|
      invariant result.Some? <==> used > 0
      invariant result.Some? ==> result.value == inputs[used - 1]
      invariant forall k :: 0 <= k < used - 1 ==> !IsToken(inputs[k])
      decreases |inputs| - used, if result.None? then 1 else 0
    {
      if used == |inputs| {
        assert forall k :: 0 <= k < |inputs| ==> !IsToken(inputs[k]);
        return Err(EndOfInput), used;
      }
      result := Some(inputs[used]);
      used := used + 1;
    }
    FirstTokenAt(inputs, 0, used - 1);
    r := Ok(if result == Some("LT") then Accept else Reject);
  }
}
