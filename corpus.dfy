/**
 * Corpus preparation: the map from each mutation to the base prompt that
 * owns it, and the retrieval documents, which are the mutations whose owner is
 * not an ignored prompt.
 */
module Corpus {
  import opened Outcomes

  /** One entry of the mutation corpus: a base prompt and its mutations. */
  datatype PromptRecord = PromptRecord(prompt: string, mutations: seq<string>)

  /** The base prompt of the last record that lists mutation m, if any. */
  function LastOwner(ps: seq<PromptRecord>, m: string): Option<string>
    decreases |ps|
  {
    if |ps| == 0 then None
    else if m in ps[|ps| - 1].mutations then Some(ps[|ps| - 1].prompt)
    else LastOwner(ps[..|ps| - 1], m)
  }

  /** LastOwner finds the owner in the last record listing m, and nothing when no record does. */
  lemma {:induction false} LastOwnerIsLast(ps: seq<PromptRecord>, m: string)
    ensures LastOwner(ps, m).None? <==> forall k :: 0 <= k < |ps| ==> m !in ps[k].mutations
    ensures LastOwner(ps, m).Some? ==>
      exists k :: 0 <= k < |ps| && m in ps[k].mutations && ps[k].prompt == LastOwner(ps, m).value &&
        forall k' :: k < k' < |ps| ==> m !in ps[k'].mutations
    decreases |ps|
  {
    if |ps| > 0 {
      var last := |ps| - 1;
      var prev := ps[..last];
      assert forall k :: 0 <= k < last ==> prev[k] == ps[k];
      if m in ps[last].mutations {
        assert LastOwner(ps, m) == Some(ps[last].prompt);
      } else {
        assert LastOwner(ps, m) == LastOwner(prev, m);
        LastOwnerIsLast(prev, m);
        if LastOwner(ps, m).Some? {
          var k :| 0 <= k < |prev| && m in prev[k].mutations && prev[k].prompt == LastOwner(ps, m).value &&
            forall k' :: k < k' < |prev| ==> m !in prev[k'].mutations;
          assert m in ps[k].mutations;
        }
      }
    }
  }

  /**
   * `mutations_to_prompts`: filled record by record, mutation by mutation, so
   * that a later record overwrites an earlier owner of the same mutation.
   */
  method BuildMutationsToPrompts(ps: seq<PromptRecord>) returns (owners: map<string, string>)
    ensures forall m :: m in owners <==> LastOwner(ps, m).Some?
    ensures forall m :: m in owners ==> owners[m] == LastOwner(ps, m).value
  {
    owners := map[];
    for k := 0 to |ps|
      invariant forall m :: m in owners <==> LastOwner(ps[..k], m).Some?
      invariant forall m :: m in owners ==> owners[m] == LastOwner(ps[..k], m).value
    {
      var prompt := ps[k];
      for t := 0 to |prompt.mutations|
        invariant forall m :: m in owners <==> LastOwner(ps[..k], m).Some? || m in prompt.mutations[..t]
        invariant forall m :: m in owners ==>
          owners[m] == if m in prompt.mutations[..t] then prompt.prompt else LastOwner(ps[..k], m).value
      {
        assert prompt.mutations[..t + 1] == prompt.mutations[..t] + [prompt.mutations[t]];
        owners := owners[prompt.mutations[t] := prompt.prompt];
      }
      assert prompt.mutations[..|prompt.mutations|] == prompt.mutations;
      assert ps[..k + 1][..k] == ps[..k];
    }
    assert ps[..|ps|] == ps;
  }

  /** The document loader's `.[].Mutations[]`: all mutations, record by record, in order. */
  function Flatten(ps: seq<PromptRecord>): (r: seq<string>)
    ensures forall m :: m in r <==> exists k :: 0 <= k < |ps| && m in ps[k].mutations
    decreases |ps|
  {
    if |ps| == 0 then []
    else
      var r := Flatten(ps[..|ps| - 1]) + ps[|ps| - 1].mutations;
      assert forall k :: 0 <= k < |ps| - 1 ==> ps[..|ps| - 1][k] == ps[k];
      r
  }

  /**
   * The `documents` comprehension: the flattened mutations, in order, whose
   * owner is not an ignored prompt.
   */
  function Documents(flat: seq<string>, owners: map<string, string>, ignore: set<string>): seq<string>
    requires forall d :: d in flat ==> d in owners
  {
    if |flat| == 0 then []
    else (if owners[flat[0]] in ignore then [] else [flat[0]]) + Documents(flat[1..], owners, ignore)
  }

  /** The filter keeps every occurrence of a mutation whose owner is not ignored, and none of the others. */
  lemma {:induction false} DocumentsCount(flat: seq<string>, owners: map<string, string>, ignore: set<string>, d: string)
    requires forall d :: d in flat ==> d in owners
    ensures multiset(Documents(flat, owners, ignore))[d] == if d in flat && owners[d] !in ignore then multiset(flat)[d] else 0
  {
    if |flat| > 0 {
      var head, rest := flat[0], flat[1..];
      var docs := Documents(rest, owners, ignore);
      DocumentsCount(rest, owners, ignore, d);
      assert flat == [head] + rest;
      ConsCount(head, rest, d);
      assert d in flat <==> d == head || d in rest;
      if owners[head] in ignore {
        assert Documents(flat, owners, ignore) == docs;
      } else {
        assert Documents(flat, owners, ignore) == [head] + docs;
        ConsCount(head, docs, d);
      }
    }
  }

  /** Putting x in front adds one occurrence of x and none of anything else. */
  lemma ConsCount(x: string, s: seq<string>, d: string)
    ensures multiset([x] + s)[d] == (if x == d then 1 else 0) + multiset(s)[d]
  {
    assert multiset([x] + s) == multiset{x} + multiset(s);
  }

  /**
   * The filter stated on the corpus itself: the mutations of flat, in their
   * order, whose last owner in ps exists and is not ignored.
   */
  function KeepOwned(flat: seq<string>, ps: seq<PromptRecord>, ignore: set<string>): seq<string>
  {
    if |flat| == 0 then []
    else
      var owner := LastOwner(ps, flat[0]);
      (if owner.Some? && owner.value !in ignore then [flat[0]] else []) + KeepOwned(flat[1..], ps, ignore)
  }

  /** Filtering through the owner map is filtering by last owner, position by position. */
  lemma {:induction false} DocumentsFollowOwners(flat: seq<string>, owners: map<string, string>, ps: seq<PromptRecord>, ignore: set<string>)
    requires forall d :: d in flat ==> d in owners && LastOwner(ps, d) == Some(owners[d])
    ensures Documents(flat, owners, ignore) == KeepOwned(flat, ps, ignore)
  {
    if |flat| > 0 {
      assert forall d :: d in flat[1..] ==> d in flat;
      DocumentsFollowOwners(flat[1..], owners, ps, ignore);
    }
  }

  /**
   * Module start-up: build the owner map, then filter the loaded mutations.
   * Every mutation of the corpus has an owner, so the lookup never fails.
   */
  method LoadDocuments(ps: seq<PromptRecord>, ignore: set<string>) returns (documents: seq<string>)
    ensures documents == KeepOwned(Flatten(ps), ps, ignore)
    ensures forall d :: d in documents ==> LastOwner(ps, d).Some? && LastOwner(ps, d).value !in ignore
    ensures forall d :: LastOwner(ps, d).Some? && LastOwner(ps, d).value !in ignore ==>
      multiset(documents)[d] == multiset(Flatten(ps))[d]
    ensures forall d :: LastOwner(ps, d).Some? && LastOwner(ps, d).value in ignore ==> d !in documents
  {
    var owners := BuildMutationsToPrompts(ps);
    var flat := Flatten(ps);
    forall d | d in flat
      ensures d in owners
    {
      LastOwnerIsLast(ps, d);
    }
    documents := Documents(flat, owners, ignore);
    DocumentsFollowOwners(flat, owners, ps, ignore);
    forall d
      ensures multiset(documents)[d] == if d in flat && owners[d] !in ignore then multiset(flat)[d] else 0
    {
      DocumentsCount(flat, owners, ignore, d);
    }
    forall d | LastOwner(ps, d).Some?
      ensures d in flat
    {
      LastOwnerIsLast(ps, d);
    }
  }

  /**
   * The ignore check is made on the map, where the last owner wins: a
   * mutation listed under an ignored base prompt and again under a later
   * base prompt that is not ignored stays in the documents, both times.
   */
  lemma SharedMutationSurvivesIgnore()
    ensures var ps := [PromptRecord("a", ["m"]), PromptRecord("b", ["m"])];
      LastOwner(ps, "m") == Some("b") && Flatten(ps) == ["m", "m"] &&
      Documents(Flatten(ps), map["m" := "b"], {"a"}) == ["m", "m"]
  {
    var ps := [PromptRecord("a", ["m"]), PromptRecord("b", ["m"])];
    assert ps[..1] == [PromptRecord("a", ["m"])];
    assert Flatten(ps[..1]) == ["m"];
    assert ["m", "m"][..1] == ["m"];
  }
}
