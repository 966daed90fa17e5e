/**
 Recording an interaction and proposing a change of collection recommendations: inside one locked
 update the event is appended, and the first time the watchlist and the events are long enough one
 proposal is made.
 */
module Evolution {

  datatype ProposalType =
    | RankingWeight | QuestionTemplate | ExplanationTemplate | CaseTag | CollectionRecommendation | SolutionTemplate

  datatype Interaction = Interaction(id: string, eventType: string)

  datatype Proposal = Proposal(proposalType: ProposalType, atEvents: nat)

  const WATCHLIST_THRESHOLD := 3
  const INTERACTION_THRESHOLD := 5

  predicate ShouldPropose(watchlist: nat, interactions: nat) {
    watchlist >= WATCHLIST_THRESHOLD && interactions >= INTERACTION_THRESHOLD
  }

  function CountOf(proposals: seq<Proposal>, t: ProposalType): nat {
    if proposals == [] then 0
    else (if proposals[0].proposalType == t then 1 else 0) + CountOf(proposals[1..], t)
  }

  lemma {:induction false} CountAppend(proposals: seq<Proposal>, p: Proposal, t: ProposalType)
    ensures CountOf(proposals + [p], t) == CountOf(proposals, t) + if p.proposalType == t then 1 else 0
  {
    if proposals == [] {
      assert proposals + [p] == [p];
    } else {
      assert (proposals + [p])[1..] == proposals[1..] + [p];
      CountAppend(proposals[1..], p, t);
    }
  }

  lemma {:induction false} CountZeroIff(proposals: seq<Proposal>, t: ProposalType)
    ensures CountOf(proposals, t) == 0 <==> !exists i :: 0 <= i < |proposals| && proposals[i].proposalType == t
  {
    if proposals != [] {
      CountZeroIff(proposals[1..], t);
      assert forall i :: 0 < i < |proposals| ==> proposals[i] == proposals[1..][i - 1];
      if exists i :: 0 <= i < |proposals[1..]| && proposals[1..][i].proposalType == t {
        var i :| 0 <= i < |proposals[1..]| && proposals[1..][i].proposalType == t;
        assert proposals[i + 1].proposalType == t;
      }
    }
  }

  predicate HasType(proposals: seq<Proposal>, t: ProposalType) {
    exists i :: 0 <= i < |proposals| && proposals[i].proposalType == t
  }

  /** The proposals after one more recorded event. */
  function ProposalsAfter(watchlist: nat, interactions: nat, proposals: seq<Proposal>): seq<Proposal> {
    if ShouldPropose(watchlist, interactions) && !HasType(proposals, CollectionRecommendation)
    then proposals + [Proposal(CollectionRecommendation, interactions)]
    else proposals
  }

  method RecordInteraction(watchlist: nat, interactions: seq<Interaction>, proposals: seq<Proposal>, event: Interaction)
    returns (interactions': seq<Interaction>, proposals': seq<Proposal>)
    ensures interactions' == interactions + [event]
    ensures proposals' == ProposalsAfter(watchlist, |interactions'|, proposals)
    ensures proposals <= proposals' && |proposals'| <= |proposals| + 1
    ensures |proposals'| == |proposals| + 1 <==>
              watchlist >= 3 && |interactions| >= 4 && CountOf(proposals, CollectionRecommendation) == 0
    ensures CountOf(proposals, CollectionRecommendation) <= 1 ==> CountOf(proposals', CollectionRecommendation) <= 1
    ensures watchlist >= 3 && |interactions| >= 4 ==> CountOf(proposals', CollectionRecommendation) >= 1
  {
    CountZeroIff(proposals, CollectionRecommendation);
    CountAppend(proposals, Proposal(CollectionRecommendation, |interactions| + 1), CollectionRecommendation);
    interactions' := interactions + [event];
    proposals' := proposals;
    if ShouldPropose(watchlist, |interactions'|) && !HasType(proposals, CollectionRecommendation) {
      proposals' := proposals' + [Proposal(CollectionRecommendation, |interactions'|)];
    }
  }

  /** One event never makes a second recommendation proposal, makes one as soon as the thresholds are
      met, leaves the other kinds alone and keeps every earlier proposal. */
  lemma {:induction false} ProposalIsMadeOnce(watchlist: nat, interactions: nat, proposals: seq<Proposal>)
    requires CountOf(proposals, CollectionRecommendation) <= 1
    ensures
      var after := ProposalsAfter(watchlist, interactions, proposals);
      CountOf(after, CollectionRecommendation) <= 1 && proposals <= after &&
      (ShouldPropose(watchlist, interactions) ==> CountOf(after, CollectionRecommendation) == 1) &&
      forall t :: t != CollectionRecommendation ==> CountOf(after, t) == CountOf(proposals, t)
  {
    CountZeroIff(proposals, CollectionRecommendation);
    forall t ensures CountOf(proposals + [Proposal(CollectionRecommendation, interactions)], t)
      == CountOf(proposals, t) + if t == CollectionRecommendation then 1 else 0
    {
      CountAppend(proposals, Proposal(CollectionRecommendation, interactions), t);
    }
  }
}
