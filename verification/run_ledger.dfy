/**
 The ledger of a production parsing run: every document of the manifest ends in exactly one summary,
 whatever succeeds, fails or is cancelled, and the exit code can be read off the counts.
 */
module RunLedger {

  /** How evaluating one document ends. */
  datatype Attempt = Returns | Raises | Interrupted

  datatype Status = Succeeded | Failed | Cancelled | NotRun

  datatype Summary = Summary(document: string, index: nat, status: Status)

  datatype RunReport = RunReport(summaries: seq<Summary>, succeeded: nat, failed: nat, cancelled: nat, notRun: nat, exitCode: int)

  function Count(summaries: seq<Summary>, status: Status): (n: nat)
    ensures n <= |summaries|
  {
    if summaries == [] then 0
    else Count(summaries[..|summaries| - 1], status) + if summaries[|summaries| - 1].status == status then 1 else 0
  }

  /** No document before `k` was interrupted. */
  predicate QuietUntil(attempts: seq<Attempt>, k: nat) {
    k <= |attempts| && forall i :: 0 <= i < k ==> !attempts[i].Interrupted?
  }

  function Ran(attempt: Attempt): Status {
    match attempt case Returns => Succeeded case Raises => Failed case Interrupted => Cancelled
  }

  /** One summary a document in manifest order; documents after the interrupted one were not run. */
  ghost predicate Ledger(documents: seq<string>, attempts: seq<Attempt>, summaries: seq<Summary>)
    requires |attempts| == |documents|
  {
    && |summaries| == |documents|
    && forall i :: 0 <= i < |documents| ==>
         summaries[i] == Summary(documents[i], i + 1, if QuietUntil(attempts, i) then Ran(attempts[i]) else NotRun)
  }

  method RunProductionEvaluation(documents: seq<string>, preflight: bool, attempts: seq<Attempt>) returns (report: RunReport)
    requires |attempts| == |documents|
    ensures preflight ==> Ledger(documents, attempts, report.summaries)
    ensures |report.summaries| == |documents|
    ensures !preflight ==>
              forall i :: 0 <= i < |documents| ==> report.summaries[i] == Summary(documents[i], i + 1, NotRun)
    ensures report.succeeded + report.failed + report.cancelled + report.notRun == |documents|
    ensures report.cancelled <= 1
    ensures report.exitCode ==
            if !preflight then 2 else if report.cancelled > 0 then 130 else if report.failed > 0 then 1 else 0
    ensures report.exitCode == 0 <==> preflight && forall a :: a in attempts ==> a == Returns
  {
    var summaries: seq<Summary> := [];
    if !preflight {
      for i := 0 to |documents|
        invariant |summaries| == i
        invariant forall j :: 0 <= j < i ==> summaries[j] == Summary(documents[j], j + 1, NotRun)
      {
        summaries := summaries + [Summary(documents[i], i + 1, NotRun)];
      }
      AllNotRun(summaries);
      return RunReport(summaries, 0, 0, 0, |documents|, 2);
    }
    var cancelled := false;
    var index := 0;
    while index < |documents| && !cancelled
      invariant !cancelled ==> index <= |documents| && |summaries| == index && QuietUntil(attempts, index)
      invariant !cancelled ==> forall j :: 0 <= j < index ==> summaries[j] == Summary(documents[j], j + 1, Ran(attempts[j]))
      invariant cancelled ==> Ledger(documents, attempts, summaries) && index < |documents| && attempts[index].Interrupted?
      decreases if cancelled then 0 else |documents| - index + 1
    {
      summaries := summaries + [Summary(documents[index], index + 1, Ran(attempts[index]))];
      if attempts[index].Interrupted? {
        for rest := index + 1 to |documents|
          invariant |summaries| == rest
          invariant forall j :: 0 <= j <= index ==> summaries[j] == Summary(documents[j], j + 1, Ran(attempts[j]))
          invariant forall j :: index < j < rest ==> summaries[j] == Summary(documents[j], j + 1, NotRun)
        {
          summaries := summaries + [Summary(documents[rest], rest + 1, NotRun)];
        }
        cancelled := true;
      } else {
        index := index + 1;
      }
    }
    CountsAddUp(summaries);
    CountsOfLedger(documents, attempts, summaries);
    report := RunReport(
      summaries, Count(summaries, Succeeded), Count(summaries, Failed), Count(summaries, Cancelled), Count(summaries, NotRun),
      if cancelled then 130 else if Count(summaries, Failed) == 0 then 0 else 1);
  }

  lemma {:induction false} AllNotRun(summaries: seq<Summary>)
    requires forall s :: s in summaries ==> s.status == NotRun
    ensures Count(summaries, NotRun) == |summaries|
  {
    if summaries != [] {
      assert summaries[|summaries| - 1] in summaries;
      AllNotRun(summaries[..|summaries| - 1]);
    }
  }

  lemma {:induction false} CountsAddUp(summaries: seq<Summary>)
    ensures Count(summaries, Succeeded) + Count(summaries, Failed) + Count(summaries, Cancelled) + Count(summaries, NotRun)
            == |summaries|
  {
    if summaries != [] { CountsAddUp(summaries[..|summaries| - 1]); }
  }

  lemma {:induction false} CountIsZeroIff(summaries: seq<Summary>, status: Status)
    ensures Count(summaries, status) == 0 <==> forall i :: 0 <= i < |summaries| ==> summaries[i].status != status
  {
    if summaries != [] {
      var front := summaries[..|summaries| - 1];
      CountIsZeroIff(front, status);
      assert forall i :: 0 <= i < |front| ==> front[i] == summaries[i];
    }
  }

  lemma {:induction false} CountAtMostOne(summaries: seq<Summary>, status: Status)
    requires forall i, j :: 0 <= i < j < |summaries| ==> !(summaries[i].status == status && summaries[j].status == status)
    ensures Count(summaries, status) <= 1
  {
    if summaries != [] {
      var front := summaries[..|summaries| - 1];
      CountAtMostOne(front, status);
      if summaries[|summaries| - 1].status == status { CountIsZeroIff(front, status); }
    }
  }

  /** A run is cancelled at most once, exactly when some document was interrupted; and nothing failed
      and nothing was cancelled exactly when every document returned. */
  lemma {:induction false} CountsOfLedger(documents: seq<string>, attempts: seq<Attempt>, summaries: seq<Summary>)
    requires |attempts| == |documents| && Ledger(documents, attempts, summaries)
    ensures Count(summaries, Cancelled) <= 1
    ensures Count(summaries, Cancelled) == 0 <==> QuietUntil(attempts, |attempts|)
    ensures Count(summaries, Cancelled) == 0 && Count(summaries, Failed) == 0 <==> forall a :: a in attempts ==> a == Returns
    ensures Count(summaries, NotRun) == 0 <== QuietUntil(attempts, |attempts|)
  {
    CountAtMostOne(summaries, Cancelled);
    CountIsZeroIff(summaries, Cancelled);
    CountIsZeroIff(summaries, Failed);
    CountIsZeroIff(summaries, NotRun);
    if !QuietUntil(attempts, |attempts|) {
      var k := FirstInterrupted(attempts);
      assert summaries[k].status == Cancelled;
    }
    assert forall i :: 0 <= i < |attempts| ==> attempts[i] in attempts;
    if QuietUntil(attempts, |attempts|) {
      assert forall i :: 0 <= i < |attempts| ==> QuietUntil(attempts, i) && summaries[i].status == Ran(attempts[i]);
    }
  }

  lemma {:induction false} FirstInterrupted(attempts: seq<Attempt>) returns (k: nat)
    requires !QuietUntil(attempts, |attempts|)
    ensures k < |attempts| && attempts[k].Interrupted? && QuietUntil(attempts, k)
  {
    k := 0;
    while k < |attempts| && !attempts[k].Interrupted?
      invariant QuietUntil(attempts, k)
    {
      k := k + 1;
    }
  }
}
