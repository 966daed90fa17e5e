/**
 Folding new claims into a working set of existing ones: each new claim contradicts an existing claim,
 is merged into one, or is inserted.  The text library (normalization, negation markers, similarity
 ratio) is a parameter.
 */
module ClaimConsolidation {
  import opened Ordering

  datatype Status = Active | Uncertain | Duplicated | Contradicted | Outdated | Rejected

  /** An absent subject, predicate or object is the empty string: the source treats both as false. */
  datatype Claim = Claim(
    id: string,
    text: string,
    status: Status,
    confidence: real,
    subject: string,
    predicate_: string,
    object_: string,
    evidence: seq<string>,
    contradictedBy: seq<string>,
    metadata: map<string, string>)

  datatype Library = Library(
    normalize: string -> string,
    negated: string -> bool,
    strip: string -> string,
    ratio: (string, string) -> real,
    source: string -> string,
    similarityThreshold: real,
    contradictionThreshold: real)

  // ---------------------------------------------------------------- confidence

  function Min(a: real, b: real): real { if a <= b then a else b }
  function Max(a: real, b: real): real { if a <= b then b else a }

  function RecalculateConfidence(confidence: real, evidence: nat, sources: nat, contradictions: nat): real {
    var score := confidence
      + Min(0.20, evidence as real * 0.03)
      + Min(0.20, sources as real * 0.05)
      - Min(0.40, contradictions as real * 0.20);
    Max(0.0, Min(1.0, score))
  }

  /** Whatever the counts, one recalculation stays in [0, 1] and moves by at least -0.35 and at most
      +0.40; with no contradictions it never lowers the confidence, and with one it never raises it
      by more than 0.20. */
  lemma {:induction false} ConfidenceMoves(confidence: real, evidence: nat, sources: nat, contradictions: nat)
    requires 0.0 <= confidence <= 1.0 && sources >= 1
    ensures
      var after := RecalculateConfidence(confidence, evidence, sources, contradictions);
      0.0 <= after <= 1.0 &&
      -0.35 <= after - confidence <= 0.40 &&
      (contradictions == 0 ==> after >= confidence) &&
      (contradictions >= 1 ==> after - confidence <= 0.20)
  {
    assert sources as real * 0.05 >= 0.05;
    assert contradictions >= 1 ==> contradictions as real * 0.20 >= 0.20;
  }

  // ---------------------------------------------------------------- comparing claims

  function Similarity(lib: Library, left: string, right: string): real {
    if left == "" || right == "" then 0.0 else lib.ratio(left, right)
  }

  predicate IsDuplicate(lib: Library, left: Claim, right: Claim) {
    || left.id == right.id
    || lib.normalize(left.text) == lib.normalize(right.text)
    || (left.subject != "" && left.subject == right.subject &&
        left.predicate_ != "" && left.predicate_ == right.predicate_ &&
        left.object_ != "" && left.object_ == right.object_)
  }

  predicate IsContradiction(lib: Library, left: Claim, right: Claim) {
    if left.subject != "" && left.subject == right.subject &&
       left.predicate_ != "" && left.predicate_ == right.predicate_ then
      lib.negated(left.text) != lib.negated(right.text)
    else
      var l := lib.strip(lib.normalize(left.text));
      var r := lib.strip(lib.normalize(right.text));
      l != "" && r != "" && Similarity(lib, l, r) >= lib.contradictionThreshold &&
      lib.negated(left.text) != lib.negated(right.text)
  }

  function Score(lib: Library, left: Claim, right: Claim): real {
    Similarity(lib, lib.normalize(left.text), lib.normalize(right.text))
  }

  /** Two copies of one claim: nothing that the comparisons look at differs. */
  predicate SameMatter(a: Claim, b: Claim) {
    a.id == b.id && a.text == b.text && a.subject == b.subject && a.predicate_ == b.predicate_ && a.object_ == b.object_
  }

  // ---------------------------------------------------------------- searching the working set

  /** Position of the first contradicted claim, or the length. */
  function FirstContradiction(lib: Library, claim: Claim, working: seq<Claim>): (k: nat)
    ensures k <= |working|
    ensures k < |working| ==> IsContradiction(lib, claim, working[k])
    ensures forall i :: 0 <= i < k ==> !IsContradiction(lib, claim, working[i])
  {
    if working == [] then 0
    else
      var k := FirstContradiction(lib, claim, working[..|working| - 1]);
      if k < |working| - 1 then k
      else if IsContradiction(lib, claim, working[|working| - 1]) then |working| - 1 else |working|
  }

  function FirstDuplicate(lib: Library, claim: Claim, working: seq<Claim>): (k: nat)
    ensures k <= |working|
    ensures k < |working| ==> IsDuplicate(lib, claim, working[k])
    ensures forall i :: 0 <= i < k ==> !IsDuplicate(lib, claim, working[i])
  {
    if working == [] then 0
    else
      var k := FirstDuplicate(lib, claim, working[..|working| - 1]);
      if k < |working| - 1 then k
      else if IsDuplicate(lib, claim, working[|working| - 1]) then |working| - 1 else |working|
  }

  /** `k` is the first claim with the greatest positive score, or there is no positive score. */
  ghost predicate IsBest(lib: Library, claim: Claim, working: seq<Claim>, k: nat) {
    && k <= |working|
    && (k == |working| ==> forall i :: 0 <= i < |working| ==> Score(lib, claim, working[i]) <= 0.0)
    && (k < |working| ==>
          && Score(lib, claim, working[k]) > 0.0
          && (forall i :: 0 <= i < k ==> Score(lib, claim, working[i]) < Score(lib, claim, working[k]))
          && (forall i :: k <= i < |working| ==> Score(lib, claim, working[i]) <= Score(lib, claim, working[k])))
  }

  function Best(lib: Library, claim: Claim, working: seq<Claim>): (k: nat)
    ensures IsBest(lib, claim, working, k)
  {
    if working == [] then 0
    else
      var n := |working| - 1;
      var k := Best(lib, claim, working[..n]);
      var best := if k < n then Score(lib, claim, working[k]) else 0.0;
      if Score(lib, claim, working[n]) > best then n else if k < n then k else |working|
  }

  /** `find_matching_claim`: the first duplicate, else the most similar claim if similar enough. */
  function Match(lib: Library, claim: Claim, working: seq<Claim>): (k: nat)
    ensures k <= |working|
  {
    var d := FirstDuplicate(lib, claim, working);
    if d < |working| then d
    else
      var b := Best(lib, claim, working);
      if b < |working| && Score(lib, claim, working[b]) >= lib.similarityThreshold then b else |working|
  }

  lemma {:induction false} NoDuplicate(lib: Library, claim: Claim, working: seq<Claim>)
    requires forall j :: 0 <= j < |working| ==> !IsDuplicate(lib, claim, working[j])
    ensures FirstDuplicate(lib, claim, working) == |working|
  {
    var k := FirstDuplicate(lib, claim, working);
  }

  lemma {:induction false} DuplicateAt(lib: Library, claim: Claim, working: seq<Claim>, i: nat)
    requires i < |working| && IsDuplicate(lib, claim, working[i])
    requires forall j :: 0 <= j < i ==> !IsDuplicate(lib, claim, working[j])
    ensures FirstDuplicate(lib, claim, working) == i
  {
    var k := FirstDuplicate(lib, claim, working);
  }

  method FindMatchingClaim(lib: Library, claim: Claim, working: seq<Claim>) returns (k: nat)
    ensures k == Match(lib, claim, working)
  {
    for i := 0 to |working|
      invariant forall j :: 0 <= j < i ==> !IsDuplicate(lib, claim, working[j])
    {
      if IsDuplicate(lib, claim, working[i]) {
        DuplicateAt(lib, claim, working, i);
        return i;
      }
    }
    NoDuplicate(lib, claim, working);
    var best, bestScore := MostSimilar(lib, claim, working);
    k := if best < |working| && bestScore >= lib.similarityThreshold then best else |working|;
  }

  /** The second search: the first claim with the greatest positive score, and that score. */
  method MostSimilar(lib: Library, claim: Claim, working: seq<Claim>) returns (best: nat, bestScore: real)
    ensures best == Best(lib, claim, working)
    ensures best < |working| ==> bestScore == Score(lib, claim, working[best])
  {
    best, bestScore := |working|, 0.0;
    for i := 0 to |working|
      invariant best < i || best == |working|
      invariant bestScore == if best < |working| then Score(lib, claim, working[best]) else 0.0
      invariant best == if Best(lib, claim, working[..i]) < i then Best(lib, claim, working[..i]) else |working|
    {
      assert working[..i + 1][..i] == working[..i];
      var score := Score(lib, claim, working[i]);
      if score > bestScore {
        best, bestScore := i, score;
      }
    }
    assert working[..|working|] == working;
  }

  /** Among copies of one claim both searches pick the first. */
  lemma {:induction false} SearchesPickFirstCopy(lib: Library, claim: Claim, working: seq<Claim>, i: nat)
    requires i < |working|
    ensures
      var k := FirstContradiction(lib, claim, working);
      k < |working| && i < k ==> !SameMatter(working[i], working[k])
    ensures
      var k := Match(lib, claim, working);
      k < |working| && i < k ==> !SameMatter(working[i], working[k])
  {
  }

  // ---------------------------------------------------------------- merging and contradicting

  function Sources(lib: Library, c: Claim): set<string> {
    (set key | key in {"source_id", "source_name"} && key in c.metadata && c.metadata[key] != "" :: c.metadata[key]) +
    (set e | e in c.evidence && e != "" :: lib.source(e))
  }

  function SourceCount(lib: Library, a: Claim, b: Claim): (n: nat)
    ensures n >= 1
  {
    var n := |Sources(lib, a) + Sources(lib, b)|;
    if n >= 1 then n else 1
  }

  function MergeClaim(lib: Library, claim: Claim, existing: Claim): Claim {
    var evidence := SortedUnique(existing.evidence + claim.evidence);
    var contradictedBy := SortedUnique(existing.contradictedBy + claim.contradictedBy);
    existing.(
      confidence := RecalculateConfidence(existing.confidence, |evidence|, SourceCount(lib, existing, claim), |contradictedBy|),
      evidence := evidence,
      contradictedBy := contradictedBy,
      status := if contradictedBy != [] then Contradicted else existing.status,
      metadata := existing.metadata + claim.metadata +
        map["consolidation" := "merged", "merged_claim_id" := claim.id])
  }

  function MarkContradicted(lib: Library, claim: Claim, existing: Claim): Claim {
    var evidence := SortedUnique(existing.evidence + claim.evidence);
    var witnessId := if claim.evidence != [] then claim.evidence[0] else claim.id;
    existing.(
      confidence := RecalculateConfidence(existing.confidence, |evidence|, SourceCount(lib, existing, claim), |existing.contradictedBy| + 1),
      evidence := evidence,
      contradictedBy := SortedUnique(existing.contradictedBy + [witnessId]),
      status := Contradicted,
      metadata := existing.metadata +
        map["contradiction_reason" := "deterministic_negation_match"] +
        map["contradicting_claim_id" := claim.id, "contradicting_text" := claim.text])
  }

  /** What one merge or contradiction keeps: the claim's identity, all evidence of both sides and
      nothing else, every contradiction already recorded, and a confidence in range. */
  lemma {:induction false} ResultsKeepEvidence(lib: Library, claim: Claim, existing: Claim, e: string)
    ensures e in MergeClaim(lib, claim, existing).evidence <==> e in existing.evidence || e in claim.evidence
    ensures e in MarkContradicted(lib, claim, existing).evidence <==> e in existing.evidence || e in claim.evidence
    ensures e in existing.contradictedBy ==>
      e in MergeClaim(lib, claim, existing).contradictedBy && e in MarkContradicted(lib, claim, existing).contradictedBy
    ensures SameMatter(MergeClaim(lib, claim, existing), existing)
    ensures SameMatter(MarkContradicted(lib, claim, existing), existing)
    ensures existing.status == Contradicted ==> MergeClaim(lib, claim, existing).status == Contradicted
    ensures MarkContradicted(lib, claim, existing).status == Contradicted
    ensures MarkContradicted(lib, claim, existing).contradictedBy != []
  {
    var witnessId := if claim.evidence != [] then claim.evidence[0] else claim.id;
    assert witnessId in MarkContradicted(lib, claim, existing).contradictedBy;
  }

  // ---------------------------------------------------------------- the fold

  datatype Action =
    | Inserted(claim: Claim)
    | Merged(claim: Claim, existing: Claim, result: Claim)
    | Contradiction(claim: Claim, existing: Claim, result: Claim)

  function ResultClaim(a: Action): Claim {
    if a.Inserted? then a.claim else a.result
  }

  function Decide(lib: Library, claim: Claim, working: seq<Claim>): Action {
    var c := FirstContradiction(lib, claim, working);
    if c < |working| then Contradiction(claim, working[c], MarkContradicted(lib, claim, working[c]))
    else
      var m := Match(lib, claim, working);
      if m < |working| then Merged(claim, working[m], MergeClaim(lib, claim, working[m])) else Inserted(claim)
  }

  function ReplaceById(working: seq<Claim>, id: string, result: Claim): seq<Claim> {
    seq(|working|, i requires 0 <= i < |working| => if working[i].id == id then result else working[i])
  }

  function WorkingAfter(working: seq<Claim>, a: Action): seq<Claim> {
    if a.Merged? then ReplaceById(working, a.existing.id, a.result) else working + [ResultClaim(a)]
  }

  function Actions(lib: Library, claims: seq<Claim>, existing: seq<Claim>): (r: seq<Action>)
    ensures |r| == |claims|
  {
    if claims == [] then []
    else
      Actions(lib, claims[..|claims| - 1], existing) +
      [Decide(lib, claims[|claims| - 1], Working(lib, claims[..|claims| - 1], existing))]
  }

  function Working(lib: Library, claims: seq<Claim>, existing: seq<Claim>): seq<Claim> {
    if claims == [] then existing
    else
      var working := Working(lib, claims[..|claims| - 1], existing);
      WorkingAfter(working, Decide(lib, claims[|claims| - 1], working))
  }

  datatype Kind = Insertions | Merges | Contradictions

  predicate IsKind(a: Action, kind: Kind) {
    match kind
    case Insertions => a.Inserted?
    case Merges => a.Merged?
    case Contradictions => a.Contradiction?
  }

  /** The result claims of one kind of action, in order. */
  function Results(actions: seq<Action>, kind: Kind): seq<Claim> {
    if actions == [] then []
    else
      Results(actions[..|actions| - 1], kind) +
      if IsKind(actions[|actions| - 1], kind) then [ResultClaim(actions[|actions| - 1])] else []
  }

  method FindContradictingClaim(lib: Library, claim: Claim, working: seq<Claim>) returns (k: nat)
    ensures k == FirstContradiction(lib, claim, working)
  {
    for i := 0 to |working|
      invariant forall j :: 0 <= j < i ==> !IsContradiction(lib, claim, working[j])
    {
      if IsContradiction(lib, claim, working[i]) {
        return i;
      }
    }
    k := |working|;
  }

  /** One turn of the loop: what to do with `claim`, and the working set afterwards. */
  method ConsolidateOne(lib: Library, claim: Claim, working: seq<Claim>)
    returns (action: Action, working': seq<Claim>)
    ensures action == Decide(lib, claim, working)
    ensures working' == WorkingAfter(working, action)
  {
    var c := FindContradictingClaim(lib, claim, working);
    if c < |working| {
      var result := MarkContradicted(lib, claim, working[c]);
      action := Contradiction(claim, working[c], result);
      working' := working + [result];
      return;
    }
    var m := FindMatchingClaim(lib, claim, working);
    if m < |working| {
      var result := MergeClaim(lib, claim, working[m]);
      action := Merged(claim, working[m], result);
      working' := ReplaceById(working, working[m].id, result);
      return;
    }
    action := Inserted(claim);
    working' := working + [claim];
  }

  method Consolidate(lib: Library, newClaims: seq<Claim>, existing: seq<Claim>)
    returns (actions: seq<Action>, inserted: seq<Claim>, merged: seq<Claim>, contradicted: seq<Claim>)
    ensures actions == Actions(lib, newClaims, existing)
    ensures inserted == Results(actions, Insertions)
    ensures merged == Results(actions, Merges)
    ensures contradicted == Results(actions, Contradictions)
  {
    actions, inserted, merged, contradicted := [], [], [], [];
    var working := existing;
    for i := 0 to |newClaims|
      invariant actions == Actions(lib, newClaims[..i], existing)
      invariant working == Working(lib, newClaims[..i], existing)
      invariant inserted == Results(actions, Insertions)
      invariant merged == Results(actions, Merges)
      invariant contradicted == Results(actions, Contradictions)
    {
      StepUnfolds(lib, newClaims, existing, i);
      var action: Action;
      action, working := ConsolidateOne(lib, newClaims[i], working);
      ResultsSnoc(actions, action);
      actions := actions + [action];
      match action {
        case Contradiction(_, _, result) => contradicted := contradicted + [result];
        case Merged(_, _, result) => merged := merged + [result];
        case Inserted(claim) => inserted := inserted + [claim];
      }
    }
    assert newClaims[..|newClaims|] == newClaims;
  }

  lemma {:induction false} StepUnfolds(lib: Library, claims: seq<Claim>, existing: seq<Claim>, i: nat)
    requires i < |claims|
    ensures
      var working := Working(lib, claims[..i], existing);
      var a := Decide(lib, claims[i], working);
      Actions(lib, claims[..i + 1], existing) == Actions(lib, claims[..i], existing) + [a] &&
      Working(lib, claims[..i + 1], existing) == WorkingAfter(working, a)
  {
    assert claims[..i + 1][..i] == claims[..i];
  }

  lemma {:induction false} ResultsSnoc(actions: seq<Action>, a: Action)
    ensures forall kind :: Results(actions + [a], kind) == Results(actions, kind) + if IsKind(a, kind) then [ResultClaim(a)] else []
  {
    assert (actions + [a])[..|actions|] == actions;
  }

  // ---------------------------------------------------------------- confidence over a run

  predicate Confident(c: Claim) {
    0.0 <= c.confidence <= 1.0
  }

  /** What an action does to the confidence of its subject. */
  predicate MovesConfidence(a: Action) {
    && Confident(ResultClaim(a))
    && (!a.Inserted? ==> -0.35 <= a.result.confidence - a.existing.confidence <= 0.40)
    && (a.Merged? && a.result.contradictedBy == [] ==> a.result.confidence >= a.existing.confidence)
    && (a.Contradiction? ==> a.result.confidence - a.existing.confidence <= 0.20)
  }

  lemma {:induction false} MergeMovesConfidence(lib: Library, claim: Claim, existing: Claim)
    requires Confident(existing)
    ensures MovesConfidence(Merged(claim, existing, MergeClaim(lib, claim, existing)))
  {
    var evidence := SortedUnique(existing.evidence + claim.evidence);
    var contradictedBy := SortedUnique(existing.contradictedBy + claim.contradictedBy);
    ConfidenceMoves(existing.confidence, |evidence|, SourceCount(lib, existing, claim), |contradictedBy|);
  }

  lemma {:induction false} ContradictionMovesConfidence(lib: Library, claim: Claim, existing: Claim)
    requires Confident(existing)
    ensures MovesConfidence(Contradiction(claim, existing, MarkContradicted(lib, claim, existing)))
  {
    var evidence := SortedUnique(existing.evidence + claim.evidence);
    ConfidenceMoves(existing.confidence, |evidence|, SourceCount(lib, existing, claim), |existing.contradictedBy| + 1);
  }

  lemma {:induction false} DecisionMovesConfidence(lib: Library, claim: Claim, working: seq<Claim>)
    requires Confident(claim) && forall i :: 0 <= i < |working| ==> Confident(working[i])
    ensures MovesConfidence(Decide(lib, claim, working))
  {
    var c, m := FirstContradiction(lib, claim, working), Match(lib, claim, working);
    if c < |working| { ContradictionMovesConfidence(lib, claim, working[c]); }
    if m < |working| { MergeMovesConfidence(lib, claim, working[m]); }
  }

  /** In every run over confidences in [0, 1] every action's result stays there, and moves from the claim
      it was made from within the same bounds as one recalculation. */
  lemma {:induction false} RunMovesConfidence(lib: Library, claims: seq<Claim>, existing: seq<Claim>)
    requires forall i :: 0 <= i < |claims| ==> Confident(claims[i])
    requires forall i :: 0 <= i < |existing| ==> Confident(existing[i])
    ensures forall j :: 0 <= j < |claims| ==> MovesConfidence(Actions(lib, claims, existing)[j])
    ensures forall i :: 0 <= i < |Working(lib, claims, existing)| ==> Confident(Working(lib, claims, existing)[i])
  {
    if claims != [] {
      var front, last := claims[..|claims| - 1], claims[|claims| - 1];
      RunMovesConfidence(lib, front, existing);
      DecisionMovesConfidence(lib, last, Working(lib, front, existing));
    }
  }
}
