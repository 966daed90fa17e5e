/**
 What the ingestion service keeps of a consolidation: the inserted, merged and contradicted claims,
 in that order, collapsed so that the last claim of each id wins; and a history record for every
 action that changed a claim's status or confidence.

 The surprising part is that a contradicted copy is appended to the working set behind the copy it was
 made from.  Both searches prefer the earlier copy, so the contradicted one is never consulted again.
 The theorems below say exactly what survives the collapse because of that.
 */
module ClaimIngestion {
  import opened Wrappers
  import opened Ordering
  import opened ClaimConsolidation

  // ---------------------------------------------------------------- the collapse

  function FirstWith(claims: seq<Claim>, id: string): Option<Claim> {
    if claims == [] then None
    else
      var f := FirstWith(claims[..|claims| - 1], id);
      if f.Some? then f else if claims[|claims| - 1].id == id then Some(claims[|claims| - 1]) else None
  }

  function LastWith(claims: seq<Claim>, id: string): Option<Claim> {
    if claims == [] then None
    else if claims[|claims| - 1].id == id then Some(claims[|claims| - 1])
    else LastWith(claims[..|claims| - 1], id)
  }

  lemma {:induction false} LastWithAppend(a: seq<Claim>, b: seq<Claim>, id: string)
    ensures LastWith(a + b, id) == if LastWith(b, id).Some? then LastWith(b, id) else LastWith(a, id)
  {
    if b == [] {
      assert a + b == a;
    } else {
      assert (a + b)[..|a + b| - 1] == a + b[..|b| - 1];
      LastWithAppend(a, b[..|b| - 1], id);
    }
  }

  ghost predicate DistinctIds(claims: seq<Claim>) {
    forall i, j :: 0 <= i < j < |claims| ==> claims[i].id != claims[j].id
  }

  function Ids(claims: seq<Claim>): (ids: seq<string>)
    ensures |ids| == |claims| && forall i :: 0 <= i < |ids| ==> ids[i] == claims[i].id
  {
    seq(|claims|, i requires 0 <= i < |claims| => claims[i].id)
  }

  /** The ids in the order of their first claims. */
  function FirstIds(claims: seq<Claim>): seq<string> {
    if claims == [] then []
    else
      var before, id := FirstIds(claims[..|claims| - 1]), claims[|claims| - 1].id;
      if id in before then before else before + [id]
  }

  /** `_dedupe_claims`: a dictionary keyed by claim id, kept in order of first insertion, whose values
      are overwritten by later claims. */
  method DedupeClaims(claims: seq<Claim>) returns (result: seq<Claim>)
    ensures DistinctIds(result) && Ids(result) == FirstIds(claims)
    ensures forall id :: LastWith(result, id) == LastWith(claims, id)
  {
    result := [];
    for i := 0 to |claims|
      invariant DistinctIds(result) && Ids(result) == FirstIds(claims[..i])
      invariant forall id :: LastWith(result, id) == LastWith(claims[..i], id)
    {
      assert claims[..i + 1][..i] == claims[..i];
      var at := 0;
      while at < |result| && result[at].id != claims[i].id
        invariant 0 <= at <= |result|
        invariant forall j :: 0 <= j < at ==> result[j].id != claims[i].id
      {
        at := at + 1;
      }
      ghost var before := result;
      if at < |result| {
        result := result[at := claims[i]];
        assert Ids(before)[at] == claims[i].id && Ids(result) == Ids(before);
        forall id ensures LastWith(result, id) == if id == claims[i].id then Some(claims[i]) else LastWith(before, id) {
          LastWithUpdate(before, at, claims[i], id);
        }
      } else {
        result := result + [claims[i]];
        assert result[..|before|] == before;
        assert claims[i].id !in Ids(before) && Ids(result) == Ids(before) + [claims[i].id];
      }
    }
    assert claims[..|claims|] == claims;
  }

  lemma {:induction false} LastWithUpdate(claims: seq<Claim>, at: nat, c: Claim, id: string)
    requires DistinctIds(claims) && at < |claims| && claims[at].id == c.id
    ensures LastWith(claims[at := c], id) == if id == c.id then Some(c) else LastWith(claims, id)
  {
    var updated := claims[at := c];
    var n := |claims| - 1;
    if at == n {
      assert updated[..n] == claims[..n];
    } else {
      assert updated[..n] == claims[..n][at := c];
      LastWithUpdate(claims[..n], at, c, id);
    }
  }

  // ---------------------------------------------------------------- which copy every action reads

  ghost predicate CopiesAgree(working: seq<Claim>) {
    forall i, j :: 0 <= i < |working| && 0 <= j < |working| && working[i].id == working[j].id ==>
      SameMatter(working[i], working[j])
  }

  /** The id an action is about. */
  function Subject(a: Action): string {
    if a.Inserted? then a.claim.id else a.existing.id
  }

  /** The claim of this id as insertions and merges alone would leave it. */
  function Line(first: Option<Claim>, actions: seq<Action>, id: string): Option<Claim> {
    if actions == [] then first
    else
      var a := actions[|actions| - 1];
      if Subject(a) == id && !a.Contradiction? then Some(ResultClaim(a))
      else Line(first, actions[..|actions| - 1], id)
  }

  /** Action `a`, taken after `before`, reads the line of its subject and computes from it. */
  ghost predicate ReadsLine(lib: Library, existing: seq<Claim>, before: seq<Action>, a: Action) {
    var line := Line(FirstWith(existing, Subject(a)), before, Subject(a));
    match a
    case Inserted(claim) => line == None
    case Merged(claim, e, result) => line == Some(e) && result == MergeClaim(lib, claim, e)
    case Contradiction(claim, e, result) => line == Some(e) && result == MarkContradicted(lib, claim, e)
  }

  ghost predicate AllReadLines(lib: Library, existing: seq<Claim>, actions: seq<Action>) {
    forall j :: 0 <= j < |actions| ==> ReadsLine(lib, existing, actions[..j], actions[j])
  }

  lemma {:induction false} FirstWithIndex(claims: seq<Claim>, k: nat)
    requires k < |claims| && forall i :: 0 <= i < k ==> claims[i].id != claims[k].id
    ensures FirstWith(claims, claims[k].id) == Some(claims[k])
  {
    if k == |claims| - 1 {
      FirstWithNone(claims[..k], claims[k].id);
    } else {
      FirstWithIndex(claims[..|claims| - 1], k);
    }
  }

  lemma {:induction false} FirstWithNone(claims: seq<Claim>, id: string)
    requires forall i :: 0 <= i < |claims| ==> claims[i].id != id
    ensures FirstWith(claims, id) == None
  {
    if claims != [] {
      FirstWithNone(claims[..|claims| - 1], id);
    }
  }

  lemma {:induction false} FirstWithReplaced(claims: seq<Claim>, id: string, result: Claim, other: string)
    requires result.id == id
    ensures FirstWith(ReplaceById(claims, id, result), other) ==
      if other == id && FirstWith(claims, id).Some? then Some(result) else FirstWith(claims, other)
  {
    if claims != [] {
      var n := |claims| - 1;
      assert ReplaceById(claims, id, result)[..n] == ReplaceById(claims[..n], id, result);
      FirstWithReplaced(claims[..n], id, result, other);
    }
  }

  /** The action is taken on the first copy of its subject, and what it yields is about the same matter. */
  ghost predicate ReadsFirstCopy(working: seq<Claim>, a: Action) {
    FirstWith(working, Subject(a)) == (if a.Inserted? then None else Some(a.existing)) &&
    SameMatter(ResultClaim(a), if a.Inserted? then a.claim else a.existing)
  }

  lemma {:induction false} PickedIsFirst(lib: Library, claim: Claim, working: seq<Claim>, k: nat)
    requires CopiesAgree(working) && k < |working|
    requires k == FirstContradiction(lib, claim, working) || k == Match(lib, claim, working)
    ensures FirstWith(working, working[k].id) == Some(working[k])
  {
    forall i | 0 <= i < k ensures working[i].id != working[k].id {
      SearchesPickFirstCopy(lib, claim, working, i);
    }
    FirstWithIndex(working, k);
  }

  lemma {:induction false} NothingPicked(lib: Library, claim: Claim, working: seq<Claim>)
    requires Match(lib, claim, working) == |working|
    ensures FirstWith(working, claim.id) == None
  {
    assert forall i :: 0 <= i < |working| ==> !IsDuplicate(lib, claim, working[i]);
    FirstWithNone(working, claim.id);
  }

  /** A decision is made against the first copy of its subject. */
  lemma {:induction false} DecisionReadsFirstCopy(lib: Library, claim: Claim, working: seq<Claim>)
    requires CopiesAgree(working)
    ensures ReadsFirstCopy(working, Decide(lib, claim, working))
  {
    var c := FirstContradiction(lib, claim, working);
    var m := Match(lib, claim, working);
    if c < |working| {
      PickedIsFirst(lib, claim, working, c);
    } else if m < |working| {
      PickedIsFirst(lib, claim, working, m);
    } else {
      NothingPicked(lib, claim, working);
    }
  }

  lemma {:induction false} FirstWithMember(claims: seq<Claim>, id: string)
    ensures match FirstWith(claims, id)
            case Some(c) => c in claims && c.id == id
            case None => forall c :: c in claims ==> c.id != id
  {
    if claims != [] {
      FirstWithMember(claims[..|claims| - 1], id);
      assert claims == claims[..|claims| - 1] + [claims[|claims| - 1]];
    }
  }

  lemma {:induction false} CopiesAgreeByMember(working: seq<Claim>)
    ensures CopiesAgree(working) <==>
            forall x, y :: x in working && y in working && x.id == y.id ==> SameMatter(x, y)
  {
  }

  lemma {:induction false} ActionKeepsAgreement(working: seq<Claim>, a: Action)
    requires CopiesAgree(working) && ReadsFirstCopy(working, a)
    ensures CopiesAgree(WorkingAfter(working, a))
  {
    var after := WorkingAfter(working, a);
    FirstWithMember(working, Subject(a));
    CopiesAgreeByMember(working);
    forall x | x in after
      ensures x == ResultClaim(a) || (x in working && (a.Merged? ==> x.id != a.existing.id))
    {
      var i :| 0 <= i < |after| && after[i] == x;
    }
    CopiesAgreeByMember(after);
  }

  lemma {:induction false} ActionMovesFirstCopy(working: seq<Claim>, a: Action, id: string)
    requires ReadsFirstCopy(working, a)
    ensures FirstWith(WorkingAfter(working, a), id) ==
            if Subject(a) == id && !a.Contradiction? then Some(ResultClaim(a)) else FirstWith(working, id)
  {
    if a.Merged? {
      FirstWithReplaced(working, a.existing.id, a.result, id);
    } else {
      assert WorkingAfter(working, a)[..|working|] == working;
    }
    FirstWithMember(working, Subject(a));
  }

  lemma {:induction false} ReadLinesSnoc(lib: Library, existing: seq<Claim>, before: seq<Action>, a: Action)
    requires AllReadLines(lib, existing, before) && ReadsLine(lib, existing, before, a)
    ensures AllReadLines(lib, existing, before + [a])
  {
    var actions := before + [a];
    forall j | 0 <= j < |actions| ensures ReadsLine(lib, existing, actions[..j], actions[j]) {
      assert j < |before| ==> actions[..j] == before[..j];
      assert j == |before| ==> actions[..j] == before;
    }
  }

  lemma {:induction false} LineSnoc(first: Option<Claim>, before: seq<Action>, a: Action, id: string)
    ensures Line(first, before + [a], id) ==
            if Subject(a) == id && !a.Contradiction? then Some(ResultClaim(a)) else Line(first, before, id)
  {
    assert (before + [a])[..|before|] == before;
  }

  /** In every run over distinct existing claims, the first copy in the working set is the line, and
      every action reads it. */
  lemma {:induction false} RunsReadLines(lib: Library, claims: seq<Claim>, existing: seq<Claim>, id: string)
    requires DistinctIds(existing)
    ensures CopiesAgree(Working(lib, claims, existing))
    ensures FirstWith(Working(lib, claims, existing), id)
         == Line(FirstWith(existing, id), Actions(lib, claims, existing), id)
    ensures AllReadLines(lib, existing, Actions(lib, claims, existing))
  {
    if claims != [] {
      var front, last := claims[..|claims| - 1], claims[|claims| - 1];
      var working, before := Working(lib, front, existing), Actions(lib, front, existing);
      var a := Decide(lib, last, working);
      RunsReadLines(lib, front, existing, id);
      RunsReadLines(lib, front, existing, Subject(a));
      DecisionReadsFirstCopy(lib, last, working);
      ActionKeepsAgreement(working, a);
      ActionMovesFirstCopy(working, a, id);
      LineSnoc(FirstWith(existing, id), before, a, id);
      DecisionReadsLine(lib, last, working, existing, before);
      ReadLinesSnoc(lib, existing, before, a);
    }
  }

  lemma {:induction false} DecisionReadsLine(lib: Library, claim: Claim, working: seq<Claim>, existing: seq<Claim>, before: seq<Action>)
    requires ReadsFirstCopy(working, Decide(lib, claim, working))
    requires
      var s := Subject(Decide(lib, claim, working));
      FirstWith(working, s) == Line(FirstWith(existing, s), before, s)
    ensures ReadsLine(lib, existing, before, Decide(lib, claim, working))
  {
  }

  // ---------------------------------------------------------------- what the collapse keeps

  /** The claims that reach `_dedupe_claims`. */
  function Collected(actions: seq<Action>): seq<Claim> {
    Results(actions, Insertions) + Results(actions, Merges) + Results(actions, Contradictions)
  }

  function Final(actions: seq<Action>, id: string): Option<Claim> {
    LastWith(Collected(actions), id)
  }

  /** Position of the last contradiction of this id, or the length. */
  function LastContradiction(actions: seq<Action>, id: string): (k: nat)
    ensures k <= |actions|
    ensures k < |actions| ==> actions[k].Contradiction? && Subject(actions[k]) == id
    ensures forall j :: 0 <= j < |actions| && actions[j].Contradiction? && Subject(actions[j]) == id ==> j <= k < |actions|
  {
    if actions == [] then 0
    else
      var n := |actions| - 1;
      if actions[n].Contradiction? && Subject(actions[n]) == id then n
      else
        var k := LastContradiction(actions[..n], id);
        if k < n then k else |actions|
  }

  predicate Touched(actions: seq<Action>, id: string) {
    exists j :: 0 <= j < |actions| && Subject(actions[j]) == id
  }

  lemma {:induction false} ReadLinesPrefix(lib: Library, existing: seq<Claim>, actions: seq<Action>)
    requires AllReadLines(lib, existing, actions) && actions != []
    ensures AllReadLines(lib, existing, actions[..|actions| - 1])
    ensures ReadsLine(lib, existing, actions[..|actions| - 1], actions[|actions| - 1])
  {
    var n := |actions| - 1;
    forall j | 0 <= j < n ensures ReadsLine(lib, existing, actions[..n][..j], actions[..n][j]) {
      assert actions[..n][..j] == actions[..j];
    }
  }

  lemma {:induction false} LastResultSnoc(lib: Library, existing: seq<Claim>, actions: seq<Action>, kind: Kind, id: string)
    requires actions != [] && AllReadLines(lib, existing, actions)
    ensures
      var n := |actions| - 1;
      LastWith(Results(actions, kind), id) ==
        if IsKind(actions[n], kind) && Subject(actions[n]) == id then Some(ResultClaim(actions[n]))
        else LastWith(Results(actions[..n], kind), id)
  {
    var n := |actions| - 1;
    var a := actions[n];
    ReadLinesPrefix(lib, existing, actions);
    LastWithAppend(Results(actions[..n], kind), if IsKind(a, kind) then [ResultClaim(a)] else [], id);
    ResultKeepsId(lib, existing, actions[..n], a);
  }

  /** The result of an action carries the id of its subject. */
  lemma {:induction false} ResultKeepsId(lib: Library, existing: seq<Claim>, before: seq<Action>, a: Action)
    requires ReadsLine(lib, existing, before, a)
    ensures ResultClaim(a).id == Subject(a)
  {
  }

  lemma {:induction false} LastContradictionResult(lib: Library, existing: seq<Claim>, actions: seq<Action>, id: string)
    requires AllReadLines(lib, existing, actions)
    ensures
      var k := LastContradiction(actions, id);
      LastWith(Results(actions, Contradictions), id) == if k < |actions| then Some(actions[k].result) else None
  {
    if actions != [] {
      var n := |actions| - 1;
      ReadLinesPrefix(lib, existing, actions);
      LastContradictionResult(lib, existing, actions[..n], id);
      LastResultSnoc(lib, existing, actions, Contradictions, id);
    }
  }

  /** Of an id's results other than contradictions, the last merge, or else the insertion, or else what
      there was. */
  function LastOther(first: Option<Claim>, actions: seq<Action>, id: string): Option<Claim> {
    var ins, mer := LastWith(Results(actions, Insertions), id), LastWith(Results(actions, Merges), id);
    if mer.Some? then mer else if ins.Some? then ins else first
  }

  lemma {:induction false} LastOtherSnoc(lib: Library, existing: seq<Claim>, actions: seq<Action>, id: string)
    requires actions != [] && AllReadLines(lib, existing, actions)
    ensures
      var n := |actions| - 1;
      var first := FirstWith(existing, id);
      if Subject(actions[n]) != id || actions[n].Contradiction? then
        LastOther(first, actions, id) == LastOther(first, actions[..n], id)
      else if actions[n].Merged? then LastOther(first, actions, id) == Some(actions[n].result)
      else LastOther(first, actions[..n], id) == None ==> LastOther(first, actions, id) == Some(actions[n].claim)
  {
    LastResultSnoc(lib, existing, actions, Insertions, id);
    LastResultSnoc(lib, existing, actions, Merges, id);
  }

  lemma {:induction false} LineIsLastOther(lib: Library, existing: seq<Claim>, actions: seq<Action>, id: string)
    requires AllReadLines(lib, existing, actions)
    ensures Line(FirstWith(existing, id), actions, id) == LastOther(FirstWith(existing, id), actions, id)
  {
    if actions != [] {
      ReadLinesPrefix(lib, existing, actions);
      LineIsLastOther(lib, existing, actions[..|actions| - 1], id);
      LastOtherSnoc(lib, existing, actions, id);
    }
  }

  lemma {:induction false} ResultsById(
    lib: Library, existing: seq<Claim>, actions: seq<Action>, id: string)
    requires AllReadLines(lib, existing, actions)
    ensures
      var k := LastContradiction(actions, id);
      LastWith(Results(actions, Contradictions), id) == if k < |actions| then Some(actions[k].result) else None
    ensures
      var ins, mer := LastWith(Results(actions, Insertions), id), LastWith(Results(actions, Merges), id);
      Line(FirstWith(existing, id), actions, id) ==
        if mer.Some? then mer else if ins.Some? then ins else FirstWith(existing, id)
  {
    LastContradictionResult(lib, existing, actions, id);
    LineIsLastOther(lib, existing, actions, id);
  }

  /** After the collapse a touched claim is the result of its last contradiction if it was ever
      contradicted, and otherwise its line: the merges after that contradiction, and every earlier
      contradiction, are gone. */
  ghost predicate CollapsesToLine(lib: Library, existing: seq<Claim>, actions: seq<Action>, id: string) {
    var k := LastContradiction(actions, id);
    var line := Line(FirstWith(existing, id), actions[..k], id);
    line.Some? &&
    Final(actions, id) == Some(if k < |actions| then MarkContradicted(lib, actions[k].claim, line.value) else line.value)
  }

  lemma {:induction false} ReadLinesCollapse(lib: Library, existing: seq<Claim>, actions: seq<Action>, id: string)
    requires AllReadLines(lib, existing, actions) && Touched(actions, id)
    ensures CollapsesToLine(lib, existing, actions, id)
  {
    ResultsById(lib, existing, actions, id);
    LastWithAppend(Results(actions, Insertions) + Results(actions, Merges), Results(actions, Contradictions), id);
    LastWithAppend(Results(actions, Insertions), Results(actions, Merges), id);
    var k := LastContradiction(actions, id);
    if k < |actions| {
      assert ReadsLine(lib, existing, actions[..k], actions[k]);
    } else {
      assert actions[..k] == actions;
      TouchedHasResult(lib, existing, actions, id);
    }
  }

  lemma {:induction false} FinalIsLastContradictionOrLine(lib: Library, claims: seq<Claim>, existing: seq<Claim>, id: string)
    requires DistinctIds(existing) && Touched(Actions(lib, claims, existing), id)
    ensures CollapsesToLine(lib, existing, Actions(lib, claims, existing), id)
  {
    RunsReadLines(lib, claims, existing, id);
    ReadLinesCollapse(lib, existing, Actions(lib, claims, existing), id);
  }

  lemma {:induction false} KindGivesResult(actions: seq<Action>, kind: Kind, j: nat)
    requires j < |actions| && IsKind(actions[j], kind)
    ensures LastWith(Results(actions, kind), ResultClaim(actions[j]).id).Some?
  {
    var n := |actions| - 1;
    var last := if IsKind(actions[n], kind) then [ResultClaim(actions[n])] else [];
    if j < n {
      KindGivesResult(actions[..n], kind, j);
    }
    LastWithAppend(Results(actions[..n], kind), last, ResultClaim(actions[j]).id);
  }

  lemma {:induction false} TouchedHasResult(lib: Library, existing: seq<Claim>, actions: seq<Action>, id: string)
    requires AllReadLines(lib, existing, actions) && Touched(actions, id)
    requires LastContradiction(actions, id) == |actions|
    ensures LastWith(Results(actions, Insertions), id).Some? || LastWith(Results(actions, Merges), id).Some?
  {
    var j :| 0 <= j < |actions| && Subject(actions[j]) == id;
    ResultKeepsId(lib, existing, actions[..j], actions[j]);
    KindGivesResult(actions, if actions[j].Inserted? then Insertions else Merges, j);
  }

  // ---------------------------------------------------------------- conservation of evidence

  /** Action `a` puts `e` on the line of `id`. */
  predicate Feeds(a: Action, id: string, e: string) {
    !a.Contradiction? && Subject(a) == id && e in a.claim.evidence
  }

  ghost predicate FedBefore(actions: seq<Action>, k: nat, id: string, e: string)
    requires k <= |actions|
  {
    exists j :: 0 <= j < k && Feeds(actions[j], id, e)
  }

  predicate Known(first: Option<Claim>, e: string) {
    first.Some? && e in first.value.evidence
  }

  lemma {:induction false} FedInPrefix(actions: seq<Action>, k: nat, id: string, e: string)
    requires k <= |actions|
    ensures FedBefore(actions[..k], k, id, e) <==> FedBefore(actions, k, id, e)
  {
    if FedBefore(actions, k, id, e) {
      var j :| 0 <= j < k && Feeds(actions[j], id, e);
      assert Feeds(actions[..k][j], id, e);
    }
    if FedBefore(actions[..k], k, id, e) {
      var j :| 0 <= j < k && Feeds(actions[..k][j], id, e);
      assert Feeds(actions[j], id, e);
    }
  }

  lemma {:induction false} FedBySuccessor(actions: seq<Action>, id: string, e: string)
    requires actions != []
    ensures
      var n := |actions| - 1;
      FedBefore(actions, n + 1, id, e) <==> FedBefore(actions, n, id, e) || Feeds(actions[n], id, e)
  {
  }

  /** An insertion or merge leaves its subject with the evidence of the line and of the new claim. */
  lemma {:induction false} StepEvidence(lib: Library, existing: seq<Claim>, before: seq<Action>, a: Action, e: string)
    requires ReadsLine(lib, existing, before, a) && !a.Contradiction?
    ensures
      var line := Line(FirstWith(existing, Subject(a)), before, Subject(a));
      e in ResultClaim(a).evidence <==> Known(line, e) || e in a.claim.evidence
  {
    if a.Merged? {
      ResultsKeepEvidence(lib, a.claim, a.existing, e);
    }
  }

  lemma {:induction false} LineEvidence(
    lib: Library, existing: seq<Claim>, actions: seq<Action>, id: string, e: string)
    requires AllReadLines(lib, existing, actions)
    ensures
      var line := Line(FirstWith(existing, id), actions, id);
      Known(line, e) <==> Known(FirstWith(existing, id), e) || FedBefore(actions, |actions|, id, e)
  {
    if actions != [] {
      var n := |actions| - 1;
      ReadLinesPrefix(lib, existing, actions);
      LineEvidence(lib, existing, actions[..n], id, e);
      FedBySuccessor(actions, id, e);
      FedInPrefix(actions, n, id, e);
      if !actions[n].Contradiction? {
        StepEvidence(lib, existing, actions[..n], actions[n], e);
      }
    }
  }

  lemma {:induction false} ReadLinesUpTo(lib: Library, existing: seq<Claim>, actions: seq<Action>, k: nat)
    requires AllReadLines(lib, existing, actions) && k <= |actions|
    ensures AllReadLines(lib, existing, actions[..k])
  {
    forall j | 0 <= j < k ensures ReadsLine(lib, existing, actions[..k][..j], actions[..k][j]) {
      assert actions[..k][..j] == actions[..j];
    }
  }

  /** `e` is evidence that must be in the collapsed claim: the claim had it, an insertion or merge
      before the claim's last contradiction brought it, or that contradiction did. */
  ghost predicate Survives(existing: seq<Claim>, actions: seq<Action>, id: string, e: string) {
    var k := LastContradiction(actions, id);
    || Known(FirstWith(existing, id), e)
    || FedBefore(actions, k, id, e)
    || (k < |actions| && e in actions[k].claim.evidence)
  }

  lemma {:induction false} CollapsedEvidence(lib: Library, existing: seq<Claim>, actions: seq<Action>, id: string, e: string)
    requires AllReadLines(lib, existing, actions) && CollapsesToLine(lib, existing, actions, id)
    ensures e in Final(actions, id).value.evidence <==> Survives(existing, actions, id, e)
  {
    var k := LastContradiction(actions, id);
    var line := Line(FirstWith(existing, id), actions[..k], id).value;
    ReadLinesUpTo(lib, existing, actions, k);
    LineEvidence(lib, existing, actions[..k], id, e);
    FedInPrefix(actions, k, id, e);
    if k < |actions| {
      ResultsKeepEvidence(lib, actions[k].claim, line, e);
    }
  }

  /** Exactly which evidence a touched claim has after the collapse. */
  lemma {:induction false} EvidenceOutcome(lib: Library, claims: seq<Claim>, existing: seq<Claim>, id: string, e: string)
    requires DistinctIds(existing) && Touched(Actions(lib, claims, existing), id)
    ensures
      var actions := Actions(lib, claims, existing);
      Final(actions, id).Some? &&
      (e in Final(actions, id).value.evidence <==> Survives(existing, actions, id, e))
  {
    RunsReadLines(lib, claims, existing, id);
    FinalIsLastContradictionOrLine(lib, claims, existing, id);
    CollapsedEvidence(lib, existing, Actions(lib, claims, existing), id, e);
  }

  /** Conservation: a claim that is never contradicted keeps all its evidence and all the evidence of
      every new claim that was inserted as it or merged into it. */
  lemma {:induction false} UncontradictedKeepsAllEvidence(lib: Library, claims: seq<Claim>, existing: seq<Claim>, j: nat)
    requires DistinctIds(existing) && j < |claims|
    requires
      var actions := Actions(lib, claims, existing);
      LastContradiction(actions, Subject(actions[j])) == |actions|
    ensures
      var actions := Actions(lib, claims, existing);
      var id := Subject(actions[j]);
      Final(actions, id).Some? &&
      (forall e :: e in claims[j].evidence ==> e in Final(actions, id).value.evidence) &&
      (forall e :: Known(FirstWith(existing, id), e) ==> e in Final(actions, id).value.evidence)
  {
    var actions := Actions(lib, claims, existing);
    var id := Subject(actions[j]);
    ActionsKeepClaims(lib, claims, existing, j);
    assert Touched(actions, id);
    FinalIsLastContradictionOrLine(lib, claims, existing, id);
    forall e ensures e in claims[j].evidence || Known(FirstWith(existing, id), e) ==> e in Final(actions, id).value.evidence {
      EvidenceOutcome(lib, claims, existing, id, e);
      if e in claims[j].evidence {
        assert Feeds(actions[j], id, e);
      }
    }
  }

  lemma {:induction false} ActionsKeepClaims(lib: Library, claims: seq<Claim>, existing: seq<Claim>, j: nat)
    requires j < |claims|
    ensures Actions(lib, claims, existing)[j].claim == claims[j]
  {
    if j < |claims| - 1 {
      ActionsKeepClaims(lib, claims[..|claims| - 1], existing, j);
    }
  }

  /** Any claim contradicted during the run ends contradicted, with a recorded contradiction,
      whatever is merged into it before or after. */
  lemma {:induction false} ContradictedStaysContradicted(lib: Library, claims: seq<Claim>, existing: seq<Claim>, j: nat)
    requires DistinctIds(existing) && j < |claims| && Actions(lib, claims, existing)[j].Contradiction?
    ensures
      var actions := Actions(lib, claims, existing);
      var final := Final(actions, Subject(actions[j]));
      final.Some? && final.value.status == Contradicted && final.value.contradictedBy != []
  {
    var actions := Actions(lib, claims, existing);
    var id := Subject(actions[j]);
    FinalIsLastContradictionOrLine(lib, claims, existing, id);
    var k := LastContradiction(actions, id);
    ResultsKeepEvidence(lib, actions[k].claim, Line(FirstWith(existing, id), actions[..k], id).value, "");
  }

  // ---------------------------------------------------------------- the audit log

  datatype Standing = Standing(status: Status, confidence: real)

  datatype Record = Record(claimId: string, before: Standing, after: Standing, evidenceId: Option<string>)

  function StandingOf(c: Claim): Standing {
    Standing(c.status, c.confidence)
  }

  /** The action moved its claim, so it is logged. */
  predicate Logged(a: Action) {
    !a.Inserted? && StandingOf(a.existing) != StandingOf(a.result)
  }

  function RecordOf(a: Action): Record
    requires !a.Inserted?
  {
    var r := a.result;
    Record(r.id, StandingOf(a.existing), StandingOf(r),
      if r.contradictedBy != [] then Some(r.contradictedBy[|r.contradictedBy| - 1])
      else if r.evidence != [] then Some(r.evidence[|r.evidence| - 1])
      else None)
  }

  function History(actions: seq<Action>): seq<Record> {
    if actions == [] then []
    else
      History(actions[..|actions| - 1]) +
      if Logged(actions[|actions| - 1]) then [RecordOf(actions[|actions| - 1])] else []
  }

  method HistoryRecords(actions: seq<Action>) returns (records: seq<Record>)
    ensures records == History(actions)
  {
    records := [];
    for i := 0 to |actions|
      invariant records == History(actions[..i])
    {
      assert actions[..i + 1][..i] == actions[..i];
      if Logged(actions[i]) {
        records := records + [RecordOf(actions[i])];
      }
    }
    assert actions[..|actions|] == actions;
  }

  function OfClaim(records: seq<Record>, id: string): seq<Record> {
    if records == [] then []
    else
      OfClaim(records[..|records| - 1], id) +
      if records[|records| - 1].claimId == id then [records[|records| - 1]] else []
  }

  /** The records lead from `start` to `end`, each starting where the one before it ended. */
  predicate Chains(start: Standing, records: seq<Record>, end: Standing) {
    if records == [] then start == end
    else
      var last := records[|records| - 1];
      last.after == end && Chains(start, records[..|records| - 1], last.before)
  }

  /** Where the claim's history starts: the stored claim, or the claim as it was inserted. */
  function Origin(existing: seq<Claim>, actions: seq<Action>, id: string): Option<Claim> {
    if FirstWith(existing, id).Some? then FirstWith(existing, id) else LastWith(Results(actions, Insertions), id)
  }

  /** The claim as the collapse would leave it now. */
  function Current(existing: seq<Claim>, actions: seq<Action>, id: string): Option<Claim> {
    var k := LastContradiction(actions, id);
    if k < |actions| then Some(actions[k].result) else Line(FirstWith(existing, id), actions, id)
  }

  /** What the log needs of `ReadsLine`: the action takes its subject's line and keeps its id. */
  ghost predicate Takes(existing: seq<Claim>, before: seq<Action>, a: Action) {
    ResultClaim(a).id == Subject(a) &&
    Line(FirstWith(existing, Subject(a)), before, Subject(a)) == (if a.Inserted? then None else Some(a.existing))
  }

  ghost predicate AllTake(existing: seq<Claim>, actions: seq<Action>) {
    forall j :: 0 <= j < |actions| ==> Takes(existing, actions[..j], actions[j])
  }

  lemma {:induction false} ReadLinesTake(lib: Library, existing: seq<Claim>, actions: seq<Action>)
    requires AllReadLines(lib, existing, actions)
    ensures AllTake(existing, actions)
  {
  }

  lemma {:induction false} TakePrefix(existing: seq<Claim>, actions: seq<Action>)
    requires AllTake(existing, actions) && actions != []
    ensures AllTake(existing, actions[..|actions| - 1])
    ensures Takes(existing, actions[..|actions| - 1], actions[|actions| - 1])
  {
    var n := |actions| - 1;
    forall j | 0 <= j < n ensures Takes(existing, actions[..n][..j], actions[..n][j]) {
      assert actions[..n][..j] == actions[..j];
    }
  }

  lemma {:induction false} HistorySnoc(existing: seq<Claim>, actions: seq<Action>, id: string)
    requires actions != [] && AllTake(existing, actions)
    ensures
      var n := |actions| - 1;
      OfClaim(History(actions), id) ==
        OfClaim(History(actions[..n]), id) +
        if Subject(actions[n]) == id && Logged(actions[n]) then [RecordOf(actions[n])] else []
  {
    var n := |actions| - 1;
    TakePrefix(existing, actions);
    var before := History(actions[..n]);
    if Logged(actions[n]) {
      assert (before + [RecordOf(actions[n])])[..|before|] == before;
    } else {
      assert History(actions) == before;
    }
  }

  lemma {:induction false} NoLineNoInsertion(existing: seq<Claim>, actions: seq<Action>, id: string)
    requires AllTake(existing, actions) && Line(FirstWith(existing, id), actions, id).None?
    ensures LastWith(Results(actions, Insertions), id) == None
    ensures FirstWith(existing, id) == None
  {
    if actions != [] {
      var n := |actions| - 1;
      TakePrefix(existing, actions);
      NoLineNoInsertion(existing, actions[..n], id);
      LastWithAppend(Results(actions[..n], Insertions), if actions[n].Inserted? then [actions[n].claim] else [], id);
    }
  }

  lemma {:induction false} OriginSnoc(existing: seq<Claim>, actions: seq<Action>, id: string)
    requires actions != [] && AllTake(existing, actions)
    ensures
      var n := |actions| - 1;
      Origin(existing, actions, id) ==
        if Subject(actions[n]) == id && actions[n].Inserted? then Some(actions[n].claim)
        else Origin(existing, actions[..n], id)
  {
    var n := |actions| - 1;
    TakePrefix(existing, actions);
    LastWithAppend(Results(actions[..n], Insertions), if actions[n].Inserted? then [actions[n].claim] else [], id);
    if Subject(actions[n]) == id && actions[n].Inserted? {
      NoLineNoInsertion(existing, actions[..n], id);
    }
  }

  /** A claim without a line has never been the subject of an action. */
  lemma {:induction false} NoLineNoHistory(existing: seq<Claim>, actions: seq<Action>, id: string)
    requires AllTake(existing, actions) && Line(FirstWith(existing, id), actions, id).None?
    ensures OfClaim(History(actions), id) == [] && LastContradiction(actions, id) == |actions|
  {
    if actions != [] {
      TakePrefix(existing, actions);
      NoLineNoHistory(existing, actions[..|actions| - 1], id);
      HistorySnoc(existing, actions, id);
    }
  }

  ghost predicate LogChains(existing: seq<Claim>, actions: seq<Action>, id: string, end: Claim) {
    Origin(existing, actions, id).Some? &&
    Chains(StandingOf(Origin(existing, actions, id).value), OfClaim(History(actions), id), StandingOf(end))
  }

  // ---------------------------------------------------------------- exactly when the log chains

  lemma {:induction false} ChainsSnoc(start: Standing, records: seq<Record>, r: Record, end: Standing)
    ensures Chains(start, records + [r], end) <==> r.after == end && Chains(start, records, r.before)
  {
    assert (records + [r])[..|records|] == records;
  }

  function StandingOption(c: Option<Claim>): Option<Standing> {
    match c
    case None => None
    case Some(claim) => Some(StandingOf(claim))
  }

  /** Where the claim's records lead to, if they chain at all. */
  function ChainEnd(existing: seq<Claim>, actions: seq<Action>, id: string): Option<Standing> {
    if actions == [] then StandingOption(FirstWith(existing, id))
    else
      var a, before := actions[|actions| - 1], ChainEnd(existing, actions[..|actions| - 1], id);
      if Subject(a) != id then before
      else if a.Inserted? then Some(StandingOf(a.claim))
      else if !Logged(a) then before
      else if before == Some(StandingOf(a.existing)) then Some(StandingOf(a.result)) else None
  }

  ghost predicate LeadsTo(existing: seq<Claim>, actions: seq<Action>, id: string, end: Standing) {
    Origin(existing, actions, id).Some? &&
    Chains(StandingOf(Origin(existing, actions, id).value), OfClaim(History(actions), id), end)
  }

  lemma {:induction false} LeadsToChainEnd(existing: seq<Claim>, actions: seq<Action>, id: string, end: Standing)
    requires AllTake(existing, actions)
    ensures LeadsTo(existing, actions, id, end) <==> ChainEnd(existing, actions, id) == Some(end)
  {
    if actions != [] {
      var n := |actions| - 1;
      var a, front := actions[n], actions[..n];
      var records := OfClaim(History(front), id);
      TakePrefix(existing, actions);
      HistorySnoc(existing, actions, id);
      OriginSnoc(existing, actions, id);
      if Subject(a) == id && a.Inserted? {
        NoLineNoHistory(existing, front, id);
        assert records + [] == records;
      } else if Subject(a) == id && Logged(a) {
        LeadsToChainEnd(existing, front, id, StandingOf(a.existing));
        if Origin(existing, actions, id).Some? {
          ChainsSnoc(StandingOf(Origin(existing, actions, id).value), records, RecordOf(a), end);
        }
      } else {
        LeadsToChainEnd(existing, front, id, end);
        assert records + [] == records;
      }
    }
  }

  /** Action `i` contradicts this claim and changes its status or confidence, so it is logged. */
  predicate LoggedContradiction(actions: seq<Action>, id: string, i: nat) {
    i < |actions| && actions[i].Contradiction? && Subject(actions[i]) == id && Logged(actions[i])
  }

  ghost predicate NoneLoggedBefore(actions: seq<Action>, id: string, n: nat) {
    forall i: nat :: i < n ==> !LoggedContradiction(actions, id, i)
  }

  ghost predicate NothingLoggedAfter(actions: seq<Action>, id: string, m: nat) {
    forall j: nat :: m < j < |actions| && Subject(actions[j]) == id ==> !Logged(actions[j])
  }

  lemma {:induction false} EndIsLine(existing: seq<Claim>, actions: seq<Action>, id: string)
    requires AllTake(existing, actions) && NoneLoggedBefore(actions, id, |actions|)
    ensures ChainEnd(existing, actions, id) == StandingOption(Line(FirstWith(existing, id), actions, id))
  {
    if actions != [] {
      var n := |actions| - 1;
      TakePrefix(existing, actions);
      assert forall i: nat :: i < n && LoggedContradiction(actions[..n], id, i) ==> LoggedContradiction(actions, id, i);
      EndIsLine(existing, actions[..n], id);
      assert !LoggedContradiction(actions, id, n);
    }
  }

  /** After a logged contradiction at `m` the line stays where the contradiction found it until something
      is logged, and that record then starts from the wrong standing. */
  ghost predicate EndsAfter(existing: seq<Claim>, actions: seq<Action>, id: string, m: nat) {
    var line := Line(FirstWith(existing, id), actions, id);
    && m < |actions| && actions[m].Contradiction?
    && line.Some?
    && (NothingLoggedAfter(actions, id, m) ==>
          ChainEnd(existing, actions, id) == Some(StandingOf(actions[m].result)) &&
          StandingOf(line.value) == StandingOf(actions[m].existing))
    && (!NothingLoggedAfter(actions, id, m) ==> ChainEnd(existing, actions, id) == None)
  }

  lemma {:induction false} EndsAfterStep(existing: seq<Claim>, actions: seq<Action>, id: string, m: nat)
    requires m < |actions| - 1 && LoggedContradiction(actions, id, m)
    requires Takes(existing, actions[..|actions| - 1], actions[|actions| - 1])
    requires EndsAfter(existing, actions[..|actions| - 1], id, m)
    ensures EndsAfter(existing, actions, id, m)
  {
    var a, front := actions[|actions| - 1], actions[..|actions| - 1];
    QuietSnoc(actions, id, m);
    assert front[m] == actions[m];
    if Subject(a) == id && Logged(a) && NothingLoggedAfter(front, id, m) {
      assert ChainEnd(existing, front, id) != Some(StandingOf(a.existing));
    }
  }

  lemma {:induction false} EndsAtLogged(existing: seq<Claim>, actions: seq<Action>, id: string)
    requires actions != [] && Takes(existing, actions[..|actions| - 1], actions[|actions| - 1])
    requires LoggedContradiction(actions, id, |actions| - 1)
    requires ChainEnd(existing, actions[..|actions| - 1], id) ==
             StandingOption(Line(FirstWith(existing, id), actions[..|actions| - 1], id))
    ensures EndsAfter(existing, actions, id, |actions| - 1)
  {
  }

  lemma {:induction false} NoneLoggedInFront(actions: seq<Action>, id: string, m: nat)
    requires m <= |actions| - 1 && NoneLoggedBefore(actions, id, m)
    ensures NoneLoggedBefore(actions[..|actions| - 1], id, m)
    ensures m < |actions| - 1 && LoggedContradiction(actions, id, m) ==> LoggedContradiction(actions[..|actions| - 1], id, m)
  {
    var front := actions[..|actions| - 1];
    forall i: nat | i < m ensures !LoggedContradiction(front, id, i) {
      assert !LoggedContradiction(actions, id, i) && front[i] == actions[i];
    }
  }

  lemma {:induction false} EndsAtFirstLogged(existing: seq<Claim>, actions: seq<Action>, id: string)
    requires actions != [] && AllTake(existing, actions[..|actions| - 1])
    requires Takes(existing, actions[..|actions| - 1], actions[|actions| - 1])
    requires LoggedContradiction(actions, id, |actions| - 1) && NoneLoggedBefore(actions[..|actions| - 1], id, |actions| - 1)
    ensures EndsAfter(existing, actions, id, |actions| - 1)
  {
    EndIsLine(existing, actions[..|actions| - 1], id);
    EndsAtLogged(existing, actions, id);
  }

  lemma {:induction false} EndAfterLogged(existing: seq<Claim>, actions: seq<Action>, id: string, m: nat)
    requires AllTake(existing, actions) && LoggedContradiction(actions, id, m) && NoneLoggedBefore(actions, id, m)
    ensures EndsAfter(existing, actions, id, m)
  {
    var n := |actions| - 1;
    TakePrefix(existing, actions);
    NoneLoggedInFront(actions, id, m);
    if m == n {
      EndsAtFirstLogged(existing, actions, id);
    } else {
      EndAfterLogged(existing, actions[..n], id, m);
      EndsAfterStep(existing, actions, id, m);
    }
  }

  lemma {:induction false} QuietSnoc(actions: seq<Action>, id: string, m: nat)
    requires m < |actions| - 1
    ensures
      var n := |actions| - 1;
      NothingLoggedAfter(actions, id, m) <==>
        NothingLoggedAfter(actions[..n], id, m) && !(Subject(actions[n]) == id && Logged(actions[n]))
  {
    var front := actions[..|actions| - 1];
    assert forall j: nat :: j < |front| ==> front[j] == actions[j];
  }

  /** Exactly when a claim's records chain: it was never contradicted; or its last contradiction is the
      only logged one and the last thing logged; or no contradiction was logged and the claim's line
      ends with the standing it had at the last of them. */
  ghost predicate ChainCondition(existing: seq<Claim>, actions: seq<Action>, id: string) {
    var last := LastContradiction(actions, id);
    || last == |actions|
    || (LoggedContradiction(actions, id, last) && NoneLoggedBefore(actions, id, last) && NothingLoggedAfter(actions, id, last))
    || (NoneLoggedBefore(actions, id, |actions|) &&
        Some(StandingOf(actions[last].existing)) == StandingOption(Line(FirstWith(existing, id), actions, id)))
  }

  lemma {:induction false} FirstLogged(actions: seq<Action>, id: string) returns (m: nat)
    requires !NoneLoggedBefore(actions, id, |actions|)
    ensures LoggedContradiction(actions, id, m) && NoneLoggedBefore(actions, id, m)
  {
    var some: nat :| some < |actions| && LoggedContradiction(actions, id, some);
    m := 0;
    while !LoggedContradiction(actions, id, m)
      invariant m <= some && NoneLoggedBefore(actions, id, m)
      decreases some - m
    {
      m := m + 1;
    }
  }

  lemma {:induction false} TakeUpTo(existing: seq<Claim>, actions: seq<Action>, k: nat)
    requires AllTake(existing, actions) && k < |actions|
    ensures AllTake(existing, actions[..k]) && Takes(existing, actions[..k], actions[k])
  {
    forall j | 0 <= j < k ensures Takes(existing, actions[..k][..j], actions[..k][j]) {
      assert actions[..k][..j] == actions[..j];
    }
  }

  /** An unlogged last contradiction behind a logged one leaves the claim where the logged one had found
      it, so the records end elsewhere. */
  lemma {:induction false} EarlierLoggedBreaks(existing: seq<Claim>, actions: seq<Action>, id: string, m: nat, last: nat)
    requires AllTake(existing, actions) && m < last < |actions|
    requires LoggedContradiction(actions, id, m) && NoneLoggedBefore(actions, id, m) && NothingLoggedAfter(actions, id, m)
    requires actions[last].Contradiction? && Subject(actions[last]) == id
    ensures StandingOf(actions[last].result) != StandingOf(actions[m].result)
  {
    var front := actions[..last];
    TakeUpTo(existing, actions, last);
    assert LoggedContradiction(front, id, m);
    assert forall i: nat :: i < m && LoggedContradiction(front, id, i) ==> LoggedContradiction(actions, id, i);
    assert forall j: nat :: j < last ==> front[j] == actions[j];
    EndAfterLogged(existing, front, id, m);
    assert !Logged(actions[last]);
  }

  lemma {:induction false} LogChainsIff(existing: seq<Claim>, actions: seq<Action>, id: string, final: Claim)
    requires AllTake(existing, actions) && Current(existing, actions, id) == Some(final)
    ensures LogChains(existing, actions, id, final) <==> ChainCondition(existing, actions, id)
  {
    var last := LastContradiction(actions, id);
    LeadsToChainEnd(existing, actions, id, StandingOf(final));
    if NoneLoggedBefore(actions, id, |actions|) {
      EndIsLine(existing, actions, id);
      assert last < |actions| ==> !LoggedContradiction(actions, id, last);
    } else {
      var m := FirstLogged(actions, id);
      EndAfterLogged(existing, actions, id, m);
      assert m <= last < |actions|;
      if m < last && NothingLoggedAfter(actions, id, m) {
        EarlierLoggedBreaks(existing, actions, id, m, last);
      }
    }
  }

  /** The log of a touched claim leads from its origin to the collapsed claim exactly under the chain
      condition, however the claims arrived. */
  lemma {:induction false} HistoryChainsIff(lib: Library, claims: seq<Claim>, existing: seq<Claim>, id: string)
    requires DistinctIds(existing) && Touched(Actions(lib, claims, existing), id)
    ensures
      var actions := Actions(lib, claims, existing);
      Final(actions, id).Some? &&
      (LogChains(existing, actions, id, Final(actions, id).value) <==> ChainCondition(existing, actions, id))
  {
    var actions := Actions(lib, claims, existing);
    RunsReadLines(lib, claims, existing, id);
    FinalIsLastContradictionOrLine(lib, claims, existing, id);
    FinalIsCurrent(lib, existing, actions, id);
    ReadLinesTake(lib, existing, actions);
    LogChainsIff(existing, actions, id, Final(actions, id).value);
  }

  lemma {:induction false} FinalIsCurrent(lib: Library, existing: seq<Claim>, actions: seq<Action>, id: string)
    requires AllReadLines(lib, existing, actions) && CollapsesToLine(lib, existing, actions, id)
    ensures Final(actions, id) == Current(existing, actions, id)
  {
    var k := LastContradiction(actions, id);
    if k < |actions| {
      assert ReadsLine(lib, existing, actions[..k], actions[k]);
    } else {
      assert actions[..k] == actions;
    }
  }

  /** Every claim the ingestion stores has a confidence in [0, 1]. */
  lemma {:induction false} StoredConfidence(lib: Library, claims: seq<Claim>, existing: seq<Claim>, id: string)
    requires DistinctIds(existing) && Touched(Actions(lib, claims, existing), id)
    requires forall i :: 0 <= i < |claims| ==> Confident(claims[i])
    requires forall i :: 0 <= i < |existing| ==> Confident(existing[i])
    ensures Final(Actions(lib, claims, existing), id).Some? && Confident(Final(Actions(lib, claims, existing), id).value)
  {
    var actions := Actions(lib, claims, existing);
    RunMovesConfidence(lib, claims, existing);
    RunsReadLines(lib, claims, existing, id);
    FinalIsLastContradictionOrLine(lib, claims, existing, id);
    FinalIsCurrent(lib, existing, actions, id);
    if LastContradiction(actions, id) < |actions| {
      assert MovesConfidence(actions[LastContradiction(actions, id)]);
    } else {
      FirstWithMember(Working(lib, claims, existing), id);
    }
  }

  // ---------------------------------------------------------------- what contradictions lose

  const SAMPLE_LIBRARY := Library(
    text => text, text => text == "denied", text => text, (a, b) => if a == b then 1.0 else 0.0, e => e, 0.92, 0.75)

  function Sample(id: string, text: string, evidence: seq<string>): Claim {
    Claim(id, text, Active, 0.5, "s", "p", "", evidence, [], map[])
  }

  const KNOWN := Sample("c", "said", ["old"])
  const DENIAL := Sample("d", "denied", ["denying"])
  const AGAIN := Sample("e", "said", ["confirming"])

  lemma {:induction false} SampleDecisions()
    ensures
      var contradicted := MarkContradicted(SAMPLE_LIBRARY, DENIAL, KNOWN);
      Decide(SAMPLE_LIBRARY, DENIAL, [KNOWN]) == Contradiction(DENIAL, KNOWN, contradicted) &&
      Decide(SAMPLE_LIBRARY, AGAIN, [KNOWN, contradicted])
        == Merged(AGAIN, KNOWN, MergeClaim(SAMPLE_LIBRARY, AGAIN, KNOWN))
  {
    var lib := SAMPLE_LIBRARY;
    var working := [KNOWN, MarkContradicted(lib, DENIAL, KNOWN)];
    assert FirstContradiction(lib, DENIAL, [KNOWN]) == 0;
    assert FirstContradiction(lib, AGAIN, working) == 2;
    assert IsDuplicate(lib, AGAIN, working[0]);
    assert FirstDuplicate(lib, AGAIN, working) == 0;
  }

  lemma {:induction false} SampleActions()
    ensures
      var contradicted := MarkContradicted(SAMPLE_LIBRARY, DENIAL, KNOWN);
      Actions(SAMPLE_LIBRARY, [DENIAL, AGAIN], [KNOWN]) ==
        [Contradiction(DENIAL, KNOWN, contradicted), Merged(AGAIN, KNOWN, MergeClaim(SAMPLE_LIBRARY, AGAIN, KNOWN))]
  {
    var lib := SAMPLE_LIBRARY;
    SampleDecisions();
    var claims := [DENIAL, AGAIN];
    assert claims[..1] == [DENIAL] && claims[..1][..0] == [];
    assert Working(lib, claims[..1], [KNOWN]) == [KNOWN, MarkContradicted(lib, DENIAL, KNOWN)];
    assert Actions(lib, claims[..1], [KNOWN]) == [Decide(lib, DENIAL, [KNOWN])];
  }

  /** With contradictions conservation fails: an existing claim is contradicted by the first new claim
      and confirmed by the second, and the second's evidence is not in the collapsed claim. */
  lemma {:induction false} MergeAfterContradictionIsLost()
    ensures
      var actions := Actions(SAMPLE_LIBRARY, [DENIAL, AGAIN], [KNOWN]);
      actions[1].Merged? && Subject(actions[1]) == KNOWN.id && "confirming" in AGAIN.evidence &&
      Final(actions, KNOWN.id).Some? && "confirming" !in Final(actions, KNOWN.id).value.evidence
  {
    SampleActions();
    var actions := Actions(SAMPLE_LIBRARY, [DENIAL, AGAIN], [KNOWN]);
    assert Subject(actions[0]) == KNOWN.id;
    EvidenceOutcome(SAMPLE_LIBRARY, [DENIAL, AGAIN], [KNOWN], KNOWN.id, "confirming");
    assert LastContradiction(actions, KNOWN.id) == 0;
    assert FirstWith([KNOWN], KNOWN.id) == Some(KNOWN) by { FirstWithIndex([KNOWN], 0); }
  }

  /** The same two claims break the claim's history: the merge is logged from the standing before the
      contradiction. */
  lemma {:induction false} MergeAfterContradictionBreaksLog()
    ensures
      var actions := Actions(SAMPLE_LIBRARY, [DENIAL, AGAIN], [KNOWN]);
      Final(actions, KNOWN.id).Some? && !LogChains([KNOWN], actions, KNOWN.id, Final(actions, KNOWN.id).value)
  {
    SampleActions();
    var actions := Actions(SAMPLE_LIBRARY, [DENIAL, AGAIN], [KNOWN]);
    assert Subject(actions[0]) == KNOWN.id && Subject(actions[1]) == KNOWN.id;
    assert DistinctIds([KNOWN]);
    HistoryChainsIff(SAMPLE_LIBRARY, [DENIAL, AGAIN], [KNOWN], KNOWN.id);
    assert LastContradiction(actions, KNOWN.id) == 0;
    assert LoggedContradiction(actions, KNOWN.id, 0);
    assert Logged(actions[1]);
  }
}
