/**
 The live review watcher.  Every poll takes a snapshot of the working tree and runs a review once the
 changes have settled, no more often than the cooldown allows, and never twice in a row for the same
 diff.  The watcher keeps four fields; what it promises is about the history of polls, so the theorems
 speak of whole poll sequences and of nothing the watcher remembers.
 */
module LiveReview {
  import opened Wrappers

  /** Times are counted in a unit that divides every clock reading and both periods; floats have one. */
  datatype Args = Args(settle: int, cooldown: int, once: bool)

  datatype Snapshot = Snapshot(digest: string, dirty: bool)

  /** One poll: the snapshot, the clock read after it, and the clock at the end of the review, which
      counts only when the poll runs one. */
  datatype Poll = Poll(snapshot: Snapshot, now: int, finished: int)

  datatype Watch = Watch(lastDigest: Option<string>, lastSeenAt: int, lastReviewed: Option<string>, lastReviewAt: int)

  datatype Outcome = Clean | Waiting | AlreadyReviewed | Settling | CoolingDown | Reviewed

  const START := Watch(None, 0, None, 0)

  function WithReview(w: Watch, p: Poll): Watch {
    w.(lastReviewed := Some(p.snapshot.digest), lastReviewAt := p.finished)
  }

  /** The fields after one poll and what the poll did. */
  function Step(args: Args, w: Watch, p: Poll): (Watch, Outcome) {
    var digest := Some(p.snapshot.digest);
    if !p.snapshot.dirty then (w, Clean)
    else if digest != w.lastDigest then
      var seen := w.(lastDigest := digest, lastSeenAt := p.now);
      if args.once then (WithReview(seen, p), Reviewed) else (seen, Waiting)
    else if digest == w.lastReviewed then (w, AlreadyReviewed)
    else if p.now - w.lastSeenAt < args.settle then (w, Settling)
    else if p.now - w.lastReviewAt < args.cooldown then (w, CoolingDown)
    else (WithReview(w, p), Reviewed)
  }

  /** With `--once` a clean tree and the immediate review both end the watcher. */
  predicate Stops(args: Args, w: Watch, p: Poll) {
    args.once && (!p.snapshot.dirty || Some(p.snapshot.digest) != w.lastDigest)
  }

  class WatchState {
    var lastDigest: Option<string>
    var lastSeenAt: int
    var lastReviewedDigest: Option<string>
    var lastReviewAt: int

    constructor ()
      ensures Value() == START
    {
      lastDigest, lastSeenAt := None, 0;
      lastReviewedDigest, lastReviewAt := None, 0;
    }

    function Value(): Watch
      reads this
    {
      Watch(lastDigest, lastSeenAt, lastReviewedDigest, lastReviewAt)
    }

    method RunReview(p: Poll)
      modifies this
      ensures Value() == WithReview(old(Value()), p)
    {
      lastReviewAt := p.finished;
      lastReviewedDigest := Some(p.snapshot.digest);
    }

    method Tick(args: Args, p: Poll) returns (outcome: Outcome, stop: bool)
      modifies this
      ensures (Value(), outcome) == Step(args, old(Value()), p)
      ensures stop == Stops(args, old(Value()), p)
    {
      stop := false;
      if !p.snapshot.dirty {
        return Clean, args.once;
      }
      if Some(p.snapshot.digest) != lastDigest {
        lastDigest := Some(p.snapshot.digest);
        lastSeenAt := p.now;
        if args.once {
          RunReview(p);
          return Reviewed, true;
        }
        return Waiting, false;
      }
      var age := p.now - lastSeenAt;
      var cooldown := p.now - lastReviewAt;
      if Some(p.snapshot.digest) == lastReviewedDigest {
        return AlreadyReviewed, false;
      }
      if age < args.settle {
        return Settling, false;
      }
      if cooldown < args.cooldown {
        return CoolingDown, false;
      }
      RunReview(p);
      outcome := Reviewed;
    }
  }

  // ---------------------------------------------------------------- histories

  function After(args: Args, polls: seq<Poll>): Watch {
    if polls == [] then START else Step(args, After(args, polls[..|polls| - 1]), polls[|polls| - 1]).0
  }

  function Outcomes(args: Args, polls: seq<Poll>): (outcomes: seq<Outcome>)
    ensures |outcomes| == |polls|
  {
    if polls == [] then []
    else
      var front := polls[..|polls| - 1];
      Outcomes(args, front) + [Step(args, After(args, front), polls[|polls| - 1]).1]
  }

  lemma {:induction false} OutcomesOfPrefix(args: Args, polls: seq<Poll>, n: nat)
    requires n <= |polls|
    ensures Outcomes(args, polls[..n]) == Outcomes(args, polls)[..n]
    ensures n < |polls| ==> Outcomes(args, polls)[n] == Step(args, After(args, polls[..n]), polls[n]).1
  {
    if n == |polls| {
      assert polls[..n] == polls;
    } else {
      var front := polls[..|polls| - 1];
      OutcomesOfPrefix(args, front, n);
      assert front[..n] == polls[..n];
    }
  }

  predicate Reviews(outcomes: seq<Outcome>, i: nat) {
    i < |outcomes| && outcomes[i] == Reviewed
  }

  /** The polling loop: it ticks until a tick stops it. */
  method WatchLoop(args: Args, polls: seq<Poll>) returns (outcomes: seq<Outcome>)
    ensures outcomes <= Outcomes(args, polls)
    ensures !args.once ==> outcomes == Outcomes(args, polls)
    ensures args.once && polls != [] ==>
              outcomes == [if polls[0].snapshot.dirty then Reviewed else Clean]
  {
    var state := new WatchState();
    outcomes := [];
    while |outcomes| < |polls|
      invariant |outcomes| <= |polls|
      invariant state.Value() == After(args, polls[..|outcomes|])
      invariant outcomes == Outcomes(args, polls[..|outcomes|])
      invariant args.once ==> outcomes == []
      decreases |polls| - |outcomes|
    {
      var i := |outcomes|;
      assert polls[..i + 1][..i] == polls[..i];
      var outcome, stop := state.Tick(args, polls[i]);
      outcomes := outcomes + [outcome];
      OutcomesOfPrefix(args, polls, i + 1);
      if stop {
        return;
      }
    }
    assert polls[..|polls|] == polls;
  }

  predicate PollsInOrder(polls: seq<Poll>) {
    forall i, j :: 0 <= i < j < |polls| ==> polls[i].now <= polls[j].now
  }

  /** The clock never runs backwards, through polls and reviews. */
  predicate ClockRuns(polls: seq<Poll>, outcomes: seq<Outcome>)
    requires |outcomes| == |polls|
  {
    && PollsInOrder(polls)
    && (forall i: nat, j: nat :: i < j < |polls| && Reviews(outcomes, i) ==> polls[i].finished <= polls[j].now)
    && (forall i: nat :: i < |polls| && Reviews(outcomes, i) ==> polls[i].now <= polls[i].finished)
  }

  predicate DirtyAt(polls: seq<Poll>, i: nat) {
    i < |polls| && polls[i].snapshot.dirty
  }

  /** `k` is the poll at which the dirty snapshots turned to `digest` and have shown nothing else since;
      clean snapshots in between do not count. */
  ghost predicate TurnedAt(polls: seq<Poll>, k: nat, digest: string) {
    && DirtyAt(polls, k)
    && (forall j: nat :: k <= j && DirtyAt(polls, j) ==> polls[j].snapshot.digest == digest)
    && (forall j: nat :: j < k && DirtyAt(polls, j) ==> DiffersBetween(polls, j, k, digest))
  }

  ghost predicate DiffersBetween(polls: seq<Poll>, from: nat, to: nat, digest: string) {
    exists m: nat :: from <= m < to && DirtyAt(polls, m) && polls[m].snapshot.digest != digest
  }

  ghost predicate LastReview(outcomes: seq<Outcome>, r: nat) {
    Reviews(outcomes, r) && forall j: nat :: r < j ==> !Reviews(outcomes, j)
  }

  /** The poll whose diff the fields describe. */
  ghost predicate RemembersDiff(polls: seq<Poll>, w: Watch) {
    match w.lastDigest
    case None => forall i: nat :: !DirtyAt(polls, i)
    case Some(digest) => exists k: nat :: TurnedAt(polls, k, digest) && w.lastSeenAt == polls[k].now
  }

  /** The review the fields describe. */
  ghost predicate RemembersReview(polls: seq<Poll>, outcomes: seq<Outcome>, w: Watch)
    requires |outcomes| == |polls|
  {
    match w.lastReviewed
    case None => w.lastReviewAt == 0 && forall i: nat :: !Reviews(outcomes, i)
    case Some(digest) =>
      exists r: nat :: LastReview(outcomes, r) && digest == polls[r].snapshot.digest
                       && w.lastReviewAt == polls[r].finished
  }

  lemma {:induction false} TurnedSnoc(polls: seq<Poll>, p: Poll, k: nat, digest: string)
    requires TurnedAt(polls, k, digest)
    ensures p.snapshot.dirty && p.snapshot.digest == digest ==> TurnedAt(polls + [p], k, digest)
    ensures !p.snapshot.dirty ==> TurnedAt(polls + [p], k, digest)
    ensures p.snapshot.dirty && p.snapshot.digest != digest ==> TurnedAt(polls + [p], |polls|, p.snapshot.digest)
  {
    var all := polls + [p];
    forall j: nat | j < k && DirtyAt(all, j)
      ensures DiffersBetween(all, j, k, digest)
    {
      assert DirtyAt(polls, j);
      var m: nat :| j <= m < k && DirtyAt(polls, m) && polls[m].snapshot.digest != digest;
      assert DirtyAt(all, m);
    }
    forall j: nat | j < |polls| && DirtyAt(all, j) && p.snapshot.dirty && p.snapshot.digest != digest
      ensures DiffersBetween(all, j, |polls|, p.snapshot.digest)
    {
      var last := if j < k then k else j;
      assert DirtyAt(polls, last) && polls[last].snapshot.digest == digest;
      assert DirtyAt(all, last);
    }
  }

  lemma {:induction false} FirstDirty(front: seq<Poll>, p: Poll)
    requires forall i: nat :: !DirtyAt(front, i)
    ensures p.snapshot.dirty ==> TurnedAt(front + [p], |front|, p.snapshot.digest)
    ensures !p.snapshot.dirty ==> forall i: nat :: !DirtyAt(front + [p], i)
  {
    forall i: nat
      ensures DirtyAt(front + [p], i) ==> i == |front|
    {
      assert !DirtyAt(front, i);
    }
  }

  lemma {:induction false} DiffSnoc(args: Args, front: seq<Poll>, p: Poll, w: Watch)
    requires RemembersDiff(front, w)
    ensures RemembersDiff(front + [p], Step(args, w, p).0)
  {
    var all := front + [p];
    assert all[|front|] == p;
    if w.lastDigest.Some? {
      var k: nat :| TurnedAt(front, k, w.lastDigest.value) && w.lastSeenAt == front[k].now;
      assert DirtyAt(front, k) && all[k] == front[k];
      TurnedSnoc(front, p, k, w.lastDigest.value);
    } else {
      FirstDirty(front, p);
    }
    SeenAfterStep(args, w, p);
  }

  lemma {:induction false} SeenAfterStep(args: Args, w: Watch, p: Poll)
    ensures
      var w' := Step(args, w, p).0;
      if p.snapshot.dirty && w.lastDigest != Some(p.snapshot.digest)
      then w'.lastDigest == Some(p.snapshot.digest) && w'.lastSeenAt == p.now
      else w'.lastDigest == w.lastDigest && w'.lastSeenAt == w.lastSeenAt
  {
  }

  lemma {:induction false} ReviewSnoc(args: Args, front: seq<Poll>, outcomes: seq<Outcome>, p: Poll, w: Watch)
    requires |outcomes| == |front| && RemembersReview(front, outcomes, w)
    ensures RemembersReview(front + [p], outcomes + [Step(args, w, p).1], Step(args, w, p).0)
  {
    var o := Step(args, w, p).1;
    forall i: nat
      ensures Reviews(outcomes + [o], i) <==> if i == |front| then o == Reviewed else Reviews(outcomes, i)
    {
    }
    if o == Reviewed {
      assert LastReview(outcomes + [o], |front|);
      assert (front + [p])[|front|] == p;
    } else if w.lastReviewed.Some? {
      var r: nat :| LastReview(outcomes, r) && w.lastReviewed.value == front[r].snapshot.digest
                    && w.lastReviewAt == front[r].finished;
      assert LastReview(outcomes + [o], r);
      assert (front + [p])[r] == front[r];
    }
  }

  lemma {:induction false} HistoryIsRemembered(args: Args, polls: seq<Poll>)
    ensures RemembersDiff(polls, After(args, polls))
    ensures RemembersReview(polls, Outcomes(args, polls), After(args, polls))
  {
    if polls != [] {
      var front, p := polls[..|polls| - 1], polls[|polls| - 1];
      HistoryIsRemembered(args, front);
      assert polls == front + [p];
      DiffSnoc(args, front, p, After(args, front));
      ReviewSnoc(args, front, Outcomes(args, front), p, After(args, front));
    }
  }

  lemma {:induction false} OneTurn(polls: seq<Poll>, k: nat, l: nat, d: string, e: string)
    requires TurnedAt(polls, k, d) && TurnedAt(polls, l, e)
    ensures k == l && d == e
  {
    assert DirtyAt(polls, k) && DirtyAt(polls, l);
    assert k < l ==> DiffersBetween(polls, k, l, e);
    assert l < k ==> DiffersBetween(polls, l, k, d);
  }

  /** The diff shown by poll `i` was shown first by an earlier poll, by nothing but it since, and for the
      settle time. */
  ghost predicate SettledAt(args: Args, polls: seq<Poll>, i: nat)
    requires i < |polls|
  {
    exists k: nat :: TurnedAt(polls[..i], k, polls[i].snapshot.digest) && polls[i].now - polls[k].now >= args.settle
  }

  ghost predicate CooledSince(args: Args, polls: seq<Poll>, r: nat, i: nat)
    requires r < |polls| && i < |polls|
  {
    polls[r].snapshot.digest != polls[i].snapshot.digest && polls[i].now - polls[r].finished >= args.cooldown
  }

  /** The latest review before `i` was of another diff and ended the cooldown ago; before any review the
      cooldown counts from the clock's zero. */
  ghost predicate ReviewDue(args: Args, polls: seq<Poll>, outcomes: seq<Outcome>, i: nat)
    requires i < |polls| == |outcomes|
  {
    && (forall r: nat :: LastReview(outcomes[..i], r) ==> CooledSince(args, polls, r, i))
    && ((forall r: nat :: !Reviews(outcomes[..i], r)) ==> polls[i].now >= args.cooldown)
  }

  lemma {:induction false} DigestSettled(args: Args, polls: seq<Poll>, i: nat, w: Watch)
    requires i < |polls| && RemembersDiff(polls[..i], w)
    ensures SettledAt(args, polls, i) <==>
            w.lastDigest == Some(polls[i].snapshot.digest) && polls[i].now - w.lastSeenAt >= args.settle
  {
    var front := polls[..i];
    var digest := polls[i].snapshot.digest;
    if w.lastDigest.Some? {
      var k: nat :| TurnedAt(front, k, w.lastDigest.value) && w.lastSeenAt == front[k].now;
      forall l: nat | TurnedAt(front, l, digest)
        ensures l == k && digest == w.lastDigest.value
      {
        OneTurn(front, k, l, w.lastDigest.value, digest);
      }
      assert polls[k] == front[k];
    } else {
      forall l: nat
        ensures !TurnedAt(front, l, digest)
      {
        assert !DirtyAt(front, l);
      }
    }
  }

  lemma {:induction false} ReviewIsDue(args: Args, polls: seq<Poll>, outcomes: seq<Outcome>, i: nat, w: Watch)
    requires i < |polls| == |outcomes| && RemembersReview(polls[..i], outcomes[..i], w)
    ensures ReviewDue(args, polls, outcomes, i) <==>
            w.lastReviewed != Some(polls[i].snapshot.digest) && polls[i].now - w.lastReviewAt >= args.cooldown
  {
    if w.lastReviewed.Some? {
      var r: nat :| LastReview(outcomes[..i], r) && w.lastReviewed.value == polls[..i][r].snapshot.digest
                    && w.lastReviewAt == polls[..i][r].finished;
      forall q: nat | LastReview(outcomes[..i], q)
        ensures q == r
      {
        assert Reviews(outcomes[..i], q) && Reviews(outcomes[..i], r);
      }
      assert polls[..i][r] == polls[r];
      assert ReviewDue(args, polls, outcomes, i) <==> CooledSince(args, polls, r, i);
    }
  }

  /** Exactly when a poll runs a review, in terms of the history alone. */
  lemma {:induction false} ReviewsIff(args: Args, polls: seq<Poll>, i: nat)
    requires !args.once && i < |polls|
    ensures Reviews(Outcomes(args, polls), i) <==>
            && polls[i].snapshot.dirty
            && SettledAt(args, polls, i)
            && ReviewDue(args, polls, Outcomes(args, polls), i)
  {
    var w := After(args, polls[..i]);
    HistoryIsRemembered(args, polls[..i]);
    OutcomesOfPrefix(args, polls, i);
    DigestSettled(args, polls, i, w);
    ReviewIsDue(args, polls, Outcomes(args, polls), i, w);
  }

  // ---------------------------------------------------------------- what it means for the user

  lemma {:induction false} LatestReview(outcomes: seq<Outcome>, i: nat) returns (r: nat)
    requires Reviews(outcomes, i)
    ensures LastReview(outcomes, r) && i <= r
  {
    r := |outcomes| - 1;
    while !Reviews(outcomes, r)
      invariant i <= r < |outcomes|
      invariant forall j: nat :: r < j ==> !Reviews(outcomes, j)
      decreases r
    {
      r := r - 1;
    }
  }

  /** Between two reviews there is at least the cooldown, and two reviews in a row are of different diffs. */
  lemma {:induction false} ReviewsAreSpacedAndDiffer(args: Args, polls: seq<Poll>, i: nat, j: nat)
    requires !args.once && ClockRuns(polls, Outcomes(args, polls))
    requires i < j && Reviews(Outcomes(args, polls), i) && Reviews(Outcomes(args, polls), j)
    ensures polls[j].now >= polls[i].finished + args.cooldown
    ensures (forall m: nat :: i < m < j ==> !Reviews(Outcomes(args, polls), m)) ==>
              polls[i].snapshot.digest != polls[j].snapshot.digest
  {
    var outcomes := Outcomes(args, polls);
    ReviewsIff(args, polls, j);
    assert Reviews(outcomes[..j], i);
    var r := LatestReview(outcomes[..j], i);
    assert CooledSince(args, polls, r, j);
    assert Reviews(outcomes, r);
    assert i < r ==> polls[i].finished <= polls[r].now <= polls[r].finished;
  }

  /** In the settle time before a review, the starting instant excepted, every dirty snapshot showed the
      reviewed diff; and some poll at least the settle time earlier had already shown it. */
  lemma {:induction false} ReviewedDiffHadSettled(args: Args, polls: seq<Poll>, j: nat)
    requires !args.once && ClockRuns(polls, Outcomes(args, polls)) && Reviews(Outcomes(args, polls), j)
    ensures forall i: nat :: i <= j && DirtyAt(polls, i) && polls[i].now > polls[j].now - args.settle ==>
                        polls[i].snapshot.digest == polls[j].snapshot.digest
    ensures exists k: nat :: k < j && DirtyAt(polls, k) && polls[k].snapshot.digest == polls[j].snapshot.digest
                             && polls[k].now <= polls[j].now - args.settle
  {
    ReviewsIff(args, polls, j);
    var front := polls[..j];
    var k: nat :| TurnedAt(front, k, polls[j].snapshot.digest) && polls[j].now - polls[k].now >= args.settle;
    assert DirtyAt(front, k) && DirtyAt(polls, k);
    forall i: nat | i <= j && DirtyAt(polls, i) && polls[i].now > polls[j].now - args.settle
      ensures polls[i].snapshot.digest == polls[j].snapshot.digest
    {
      if i < j {
        assert DirtyAt(front, i);
        assert k <= i;
      }
    }
  }

  predicate Stable(polls: seq<Poll>, k: nat, n: nat, digest: string) {
    forall i: nat :: k <= i < n ==> DirtyAt(polls, i) && polls[i].snapshot.digest == digest
  }

  /** A diff shown unchanged to the end is the one last turned to, no later than it was first shown. */
  lemma {:induction false} StableWasTurnedTo(polls: seq<Poll>, k: nat, digest: string, t: nat, e: string)
    requires k < |polls| && Stable(polls, k, |polls|, digest) && TurnedAt(polls, t, e)
    ensures e == digest && t <= k
  {
    var last: nat := |polls| - 1;
    assert DirtyAt(polls, last) && DirtyAt(polls, t) && DirtyAt(polls, k);
    assert e == polls[last].snapshot.digest;
    assert !DiffersBetween(polls, k, t, digest);
  }

  lemma {:induction false} StableIsSeen(polls: seq<Poll>, k: nat, digest: string, w: Watch)
    requires k < |polls| && Stable(polls, k, |polls|, digest) && RemembersDiff(polls, w)
    requires PollsInOrder(polls)
    ensures w.lastDigest == Some(digest) && w.lastSeenAt <= polls[k].now
  {
    assert DirtyAt(polls, k);
    var t: nat :| TurnedAt(polls, t, w.lastDigest.value) && w.lastSeenAt == polls[t].now;
    StableWasTurnedTo(polls, k, digest, t, w.lastDigest.value);
  }

  lemma {:induction false} StablePrefix(polls: seq<Poll>, k: nat, j: nat, digest: string)
    requires j < |polls| && Stable(polls, k, j + 1, digest)
    ensures Stable(polls[..j], k, j, digest)
  {
    forall i: nat | k <= i < j
      ensures DirtyAt(polls[..j], i) && polls[..j][i].snapshot.digest == digest
    {
      assert DirtyAt(polls, i);
    }
  }

  lemma {:induction false} StableIsSettled(args: Args, polls: seq<Poll>, k: nat, j: nat, w: Watch)
    requires k < j < |polls| && Stable(polls, k, j + 1, polls[j].snapshot.digest)
    requires PollsInOrder(polls[..j])
    requires polls[j].now - polls[k].now >= args.settle
    requires RemembersDiff(polls[..j], w)
    ensures polls[j].snapshot.dirty && SettledAt(args, polls, j)
  {
    StablePrefix(polls, k, j, polls[j].snapshot.digest);
    StableIsSeen(polls[..j], k, polls[j].snapshot.digest, w);
    assert polls[..j][k] == polls[k];
    DigestSettled(args, polls, j, w);
    assert DirtyAt(polls, j);
  }

  lemma {:induction false} LastReviewOfPrefix(outcomes: seq<Outcome>, j: nat, r: nat)
    requires j < |outcomes|
    ensures Reviews(outcomes, j) ==> LastReview(outcomes[..j + 1], j)
    ensures !Reviews(outcomes, j) && LastReview(outcomes[..j], r) ==> LastReview(outcomes[..j + 1], r)
  {
    var head := outcomes[..j + 1];
    assert head == outcomes[..j] + [outcomes[j]];
    if !Reviews(outcomes, j) && LastReview(outcomes[..j], r) {
      assert Reviews(head, r);
      forall q: nat | Reviews(head, q)
        ensures q <= r
      {
        assert head[q] == outcomes[q];
        assert Reviews(outcomes[..j], q);
      }
    }
  }

  /** The watcher makes progress: a diff seen unchanged from poll `k` on has been reviewed by the first
      poll past both the settle time and the cooldown. */
  lemma {:induction false} StableDiffIsReviewed(args: Args, polls: seq<Poll>, k: nat, j: nat)
    requires !args.once && k < j < |polls| && ClockRuns(polls, Outcomes(args, polls))
    requires Stable(polls, k, j + 1, polls[j].snapshot.digest)
    requires polls[j].now - polls[k].now >= args.settle && polls[j].now >= args.cooldown
    requires forall r: nat :: LastReview(Outcomes(args, polls)[..j], r) ==> polls[j].now - polls[r].finished >= args.cooldown
    ensures exists r: nat :: LastReview(Outcomes(args, polls)[..j + 1], r)
                             && polls[r].snapshot.digest == polls[j].snapshot.digest
  {
    var outcomes := Outcomes(args, polls);
    HistoryIsRemembered(args, polls[..j]);
    StableIsSettled(args, polls, k, j, After(args, polls[..j]));
    ReviewsIff(args, polls, j);
    LastReviewOfPrefix(outcomes, j, j);
    if !Reviews(outcomes, j) {
      var r: nat :| LastReview(outcomes[..j], r) && !CooledSince(args, polls, r, j);
      LastReviewOfPrefix(outcomes, j, r);
    }
  }
}
