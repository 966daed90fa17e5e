/**
 The closure walk over every order in which its worklist could be popped.  The walk as written pops the
 last entry; here any entry may be popped.  Whatever is popped, the keys are visited in an order in
 which each is a root or required by an earlier one, and every such order is some walk's.  The last
 visited claimant of a name decides its pin, so the pins vary with the order exactly when two claimants
 with different versions can each be visited last.
 */
module LockOrders {
  import opened Wrappers
  import opened LockConstraints
  import opened Ordering

  datatype Walk = Walk(pending: seq<Requirement>, order: seq<Key>)

  function Applicable(w: World, raw: seq<Requirement>, active: set<string>): (r: seq<Requirement>)
    ensures forall x :: x in r <==> x in raw && Applies(w, x, active)
  {
    if raw == [] then []
    else
      assert raw == raw[..|raw| - 1] + [raw[|raw| - 1]];
      Applicable(w, raw[..|raw| - 1], active) + if Applies(w, raw[|raw| - 1], active) then [raw[|raw| - 1]] else []
  }

  function Begin(w: World, requirements: seq<Requirement>): Walk {
    Walk(Applicable(w, requirements, {}), [])
  }

  /** Pops entry `i`: a visited key is skipped, a new one visited and its requirements appended. */
  function Pop(w: World, s: Walk, i: nat): Option<Walk> {
    if i >= |s.pending| then None
    else
      var key, rest := KeyOf(w, s.pending[i]), s.pending[..i] + s.pending[i + 1..];
      if key in s.order then Some(Walk(rest, s.order))
      else if key.name !in w.installed then Some(Walk(rest, s.order + [key]))
      else Some(Walk(rest + Applicable(w, w.installed[key.name].requires_, key.extras), s.order + [key]))
  }

  function Pops(w: World, s: Walk, choices: seq<nat>): Option<Walk> {
    if choices == [] then Some(s)
    else match Pops(w, s, choices[..|choices| - 1])
         case None => None
         case Some(before) => Pop(w, before, choices[|choices| - 1])
  }

  predicate Claims(w: World, k: Key, n: string) {
    k.name in w.installed && w.canon(w.installed[k.name].name) == n
  }

  /** A walk that has emptied its worklist, visiting the keys in this order. */
  ghost predicate VisitedBy(w: World, requirements: seq<Requirement>, choices: seq<nat>, order: seq<Key>) {
    Pops(w, Begin(w, requirements), choices) == Some(Walk([], order))
  }

  // ---------------------------------------------------------------- orders and reachability

  lemma {:induction false} OrderIsReachable(w: World, requirements: seq<Requirement>, order: seq<Key>, i: nat)
    requires Partial(w, requirements, order) && i < |order|
    ensures Reachable(w, requirements, order[i])
  {
    assert Justified(w, requirements, order, i);
    if IsRoot(w, requirements, order[i]) {
      RootIsReachable(w, requirements, order[i]);
    } else {
      var j: nat :| j < i && Edge(w, order[j], order[i]);
      OrderIsReachable(w, requirements, order, j);
      EdgeExtendsReach(w, requirements, order[j], order[i]);
    }
  }

  lemma {:induction false} OrderHoldsReachable(w: World, requirements: seq<Requirement>, order: seq<Key>, k: Key)
    requires IsOrder(w, requirements, order)
    ensures k in order <==> Reachable(w, requirements, k)
  {
    if k in order {
      var i: nat :| i < |order| && order[i] == k;
      OrderIsReachable(w, requirements, order, i);
    }
    if Reachable(w, requirements, k) {
      var seen := set x | x in order;
      ClosedSetHoldsReachable(w, requirements, seen, k);
    }
  }

  // ---------------------------------------------------------------- walks and orders are the same thing

  /** What every pop keeps: the visits are justified, what must still be visited is pending, and nothing
      else is. */
  ghost predicate WalkOk(w: World, requirements: seq<Requirement>, s: Walk) {
    && Partial(w, requirements, s.order)
    && (forall k :: IsRoot(w, requirements, k) ==> k in s.order || PendingKey(w, s.pending, k))
    && (forall a, b :: a in s.order && Edge(w, a, b) ==> b in s.order || PendingKey(w, s.pending, b))
    && (forall r :: r in s.pending ==> Called(w, requirements, s.order, KeyOf(w, r)))
  }

  lemma {:induction false} BeginOk(w: World, requirements: seq<Requirement>)
    ensures WalkOk(w, requirements, Begin(w, requirements))
  {
    var pending := Begin(w, requirements).pending;
    forall k | IsRoot(w, requirements, k)
      ensures PendingKey(w, pending, k)
    {
      var r :| r in requirements && Applies(w, r, {}) && k == KeyOf(w, r);
      assert r in pending;
    }
  }

  lemma {:induction false} StillPending(w: World, pending: seq<Requirement>, i: nat, pushed: seq<Requirement>, k: Key)
    requires i < |pending| && PendingKey(w, pending, k) && k != KeyOf(w, pending[i])
    ensures PendingKey(w, pending[..i] + pending[i + 1..] + pushed, k)
  {
    var j: nat :| j < |pending| && KeyOf(w, pending[j]) == k;
    var after := pending[..i] + pending[i + 1..] + pushed;
    assert after[if j < i then j else j - 1] == pending[j];
  }

  lemma {:induction false} PushedPending(w: World, rest: seq<Requirement>, key: Key, b: Key)
    requires Edge(w, key, b)
    ensures PendingKey(w, rest + Applicable(w, w.installed[key.name].requires_, key.extras), b)
  {
    var pushed := Applicable(w, w.installed[key.name].requires_, key.extras);
    var r :| r in w.installed[key.name].requires_ && Applies(w, r, key.extras) && b == KeyOf(w, r);
    assert r in pushed;
    var j: nat :| j < |pushed| && pushed[j] == r;
    assert (rest + pushed)[|rest| + j] == r;
  }

  lemma {:induction false} PopKeepsPending(w: World, s: Walk, i: nat, k: Key)
    requires Pop(w, s, i).Some? && PendingKey(w, s.pending, k)
    ensures k in Pop(w, s, i).value.order || PendingKey(w, Pop(w, s, i).value.pending, k)
  {
    var key, rest := KeyOf(w, s.pending[i]), s.pending[..i] + s.pending[i + 1..];
    if k != key {
      var pushed := if key in s.order || key.name !in w.installed then []
                    else Applicable(w, w.installed[key.name].requires_, key.extras);
      StillPending(w, s.pending, i, pushed, k);
      assert rest + [] == rest;
    }
  }

  lemma {:induction false} PopPendingCalled(w: World, requirements: seq<Requirement>, s: Walk, i: nat, r: Requirement)
    requires WalkOk(w, requirements, s) && Pop(w, s, i).Some? && r in Pop(w, s, i).value.pending
    ensures Called(w, requirements, Pop(w, s, i).value.order, KeyOf(w, r))
  {
    var after := Pop(w, s, i).value;
    var key := KeyOf(w, s.pending[i]);
    if r in s.pending {
      assert Called(w, requirements, s.order, KeyOf(w, r));
      if !IsRoot(w, requirements, KeyOf(w, r)) {
        var a :| a in s.order && Edge(w, a, KeyOf(w, r));
        assert a in after.order;
      }
    } else {
      assert key in after.order && Edge(w, key, KeyOf(w, r));
    }
  }

  lemma {:induction false} PopOk(w: World, requirements: seq<Requirement>, s: Walk, i: nat)
    requires WalkOk(w, requirements, s) && Pop(w, s, i).Some?
    ensures WalkOk(w, requirements, Pop(w, s, i).value)
  {
    var after, key := Pop(w, s, i).value, KeyOf(w, s.pending[i]);
    assert s.pending[i] in s.pending;
    if key !in s.order {
      PartialSnoc(w, requirements, s.order, key);
    }
    forall k | IsRoot(w, requirements, k)
      ensures k in after.order || PendingKey(w, after.pending, k)
    {
      if PendingKey(w, s.pending, k) { PopKeepsPending(w, s, i, k); }
    }
    forall a, b | a in after.order && Edge(w, a, b)
      ensures b in after.order || PendingKey(w, after.pending, b)
    {
      if a in s.order {
        if PendingKey(w, s.pending, b) { PopKeepsPending(w, s, i, b); }
      } else {
        PushedPending(w, s.pending[..i] + s.pending[i + 1..], key, b);
      }
    }
    forall r | r in after.pending
      ensures Called(w, requirements, after.order, KeyOf(w, r))
    {
      PopPendingCalled(w, requirements, s, i, r);
    }
  }

  lemma {:induction false} PopsOk(w: World, requirements: seq<Requirement>, choices: seq<nat>)
    requires Pops(w, Begin(w, requirements), choices).Some?
    ensures WalkOk(w, requirements, Pops(w, Begin(w, requirements), choices).value)
  {
    if choices == [] {
      BeginOk(w, requirements);
    } else {
      PopsOk(w, requirements, choices[..|choices| - 1]);
      PopOk(w, requirements, Pops(w, Begin(w, requirements), choices[..|choices| - 1]).value, choices[|choices| - 1]);
    }
  }

  lemma {:induction false} PopsSnoc(w: World, s: Walk, choices: seq<nat>, i: nat)
    requires Pops(w, s, choices).Some?
    ensures Pops(w, s, choices + [i]) == Pop(w, Pops(w, s, choices).value, i)
  {
    assert (choices + [i])[..|choices|] == choices;
  }

  lemma {:induction false} NextIsPending(w: World, requirements: seq<Requirement>, order: seq<Key>, n: nat, s: Walk)
    requires IsOrder(w, requirements, order) && n < |order|
    requires WalkOk(w, requirements, s) && s.order == order[..n]
    ensures order[n] !in s.order && PendingKey(w, s.pending, order[n])
  {
    assert Justified(w, requirements, order, n);
    if !IsRoot(w, requirements, order[n]) {
      var j: nat :| j < n && Edge(w, order[j], order[n]);
      assert order[j] == s.order[j] && order[j] in s.order;
    }
  }

  /** A walk that has made the first visits of an order can make the next one. */
  lemma {:induction false} VisitsNext(w: World, requirements: seq<Requirement>, order: seq<Key>, n: nat, s: Walk) returns (i: nat)
    requires IsOrder(w, requirements, order) && n < |order|
    requires WalkOk(w, requirements, s) && s.order == order[..n]
    ensures Pop(w, s, i).Some? && Pop(w, s, i).value.order == order[..n + 1]
  {
    NextIsPending(w, requirements, order, n, s);
    i :| i < |s.pending| && KeyOf(w, s.pending[i]) == order[n];
    assert order[..n + 1] == order[..n] + [order[n]];
  }

  lemma {:induction false} WalksUpTo(w: World, requirements: seq<Requirement>, order: seq<Key>, n: nat) returns (choices: seq<nat>)
    requires IsOrder(w, requirements, order) && n <= |order|
    ensures Pops(w, Begin(w, requirements), choices).Some?
    ensures Pops(w, Begin(w, requirements), choices).value.order == order[..n]
  {
    if n == 0 {
      choices := [];
    } else {
      var before := WalksUpTo(w, requirements, order, n - 1);
      PopsOk(w, requirements, before);
      var i := VisitsNext(w, requirements, order, n - 1, Pops(w, Begin(w, requirements), before).value);
      PopsSnoc(w, Begin(w, requirements), before, i);
      choices := before + [i];
    }
  }

  lemma {:induction false} Drains(w: World, requirements: seq<Requirement>, order: seq<Key>, choices: seq<nat>, n: nat)
    returns (all: seq<nat>)
    requires IsOrder(w, requirements, order) && Pops(w, Begin(w, requirements), choices).Some?
    requires
      var s := Pops(w, Begin(w, requirements), choices).value;
      s.order == order && |s.pending| == n
    ensures VisitedBy(w, requirements, all, order)
    decreases n
  {
    var s := Pops(w, Begin(w, requirements), choices).value;
    if n == 0 {
      all := choices;
    } else {
      PopsOk(w, requirements, choices);
      assert s.pending[0] in s.pending && KeyOf(w, s.pending[0]) in order;
      PopsSnoc(w, Begin(w, requirements), choices, 0);
      all := Drains(w, requirements, order, choices + [0], n - 1);
    }
  }

  /** The visiting orders of the walk over all ways of popping are exactly the orders in which each key is
      a root or required by an earlier one, and nothing reachable is left out. */
  lemma {:induction false} WalksVisitOrders(w: World, requirements: seq<Requirement>, order: seq<Key>)
    ensures IsOrder(w, requirements, order) <==> exists choices :: VisitedBy(w, requirements, choices, order)
  {
    if IsOrder(w, requirements, order) {
      var choices := WalksUpTo(w, requirements, order, |order|);
      assert order[..|order|] == order;
      var all := Drains(w, requirements, order, choices, |Pops(w, Begin(w, requirements), choices).value.pending|);
    }
    if choices :| VisitedBy(w, requirements, choices, order) {
      PopsOk(w, requirements, choices);
      assert forall k :: !PendingKey(w, [], k);
    }
  }

  // ---------------------------------------------------------------- the last claimant decides

  ghost predicate LastClaim(w: World, order: seq<Key>, n: string, i: nat) {
    i < |order| && Claims(w, order[i], n) && forall j: nat :: i < j < |order| ==> !Claims(w, order[j], n)
  }

  lemma {:induction false} LastClaimPins(w: World, order: seq<Key>, n: string)
    ensures n in PinsOf(w, order) <==> exists i: nat :: LastClaim(w, order, n, i)
    ensures forall i: nat :: LastClaim(w, order, n, i) ==>
              n in PinsOf(w, order) && PinsOf(w, order)[n] == w.installed[order[i].name].version
  {
    if order != [] {
      var front, k := order[..|order| - 1], order[|order| - 1];
      LastClaimPins(w, front, n);
      assert forall j: nat :: j < |front| ==> front[j] == order[j];
      if Claims(w, k, n) {
        assert LastClaim(w, order, n, |order| - 1);
      } else {
        forall i: nat
          ensures LastClaim(w, order, n, i) <==> LastClaim(w, front, n, i)
        {
        }
      }
    }
  }

  /** `k'` can be reached without passing through `k`. */
  ghost predicate Avoids(w: World, requirements: seq<Requirement>, k: Key, path: seq<Key>) {
    IsPath(w, requirements, path) && k !in path
  }

  ghost predicate ReachableAround(w: World, requirements: seq<Requirement>, k: Key, k': Key) {
    exists path :: Avoids(w, requirements, k, path) && path[|path| - 1] == k'
  }

  /** A reachable claimant of `n` on which no other claimant of `n` depends: each of them can be reached
      without it. */
  ghost predicate CanBeLast(w: World, requirements: seq<Requirement>, n: string, k: Key) {
    && Reachable(w, requirements, k) && Claims(w, k, n)
    && forall k' :: k' != k && Reachable(w, requirements, k') && Claims(w, k', n) ==> ReachableAround(w, requirements, k, k')
  }

  lemma {:induction false} EarlierIsAround(w: World, requirements: seq<Requirement>, order: seq<Key>, p: nat, i: nat)
    requires Partial(w, requirements, order) && i < p < |order|
    ensures ReachableAround(w, requirements, order[p], order[i])
  {
    assert Justified(w, requirements, order, i);
    if IsRoot(w, requirements, order[i]) {
      assert Avoids(w, requirements, order[p], [order[i]]);
      assert [order[i]][|[order[i]]| - 1] == order[i];
    } else {
      var j: nat :| j < i && Edge(w, order[j], order[i]);
      EarlierIsAround(w, requirements, order, p, j);
      var path :| Avoids(w, requirements, order[p], path) && path[|path| - 1] == order[j];
      var longer := path + [order[i]];
      assert IsPath(w, requirements, longer);
      assert Avoids(w, requirements, order[p], longer) && longer[|longer| - 1] == order[i];
    }
  }

  lemma {:induction false} LastClaimantCanBeLast(w: World, requirements: seq<Requirement>, order: seq<Key>, n: string, p: nat)
    requires IsOrder(w, requirements, order) && LastClaim(w, order, n, p)
    ensures CanBeLast(w, requirements, n, order[p])
  {
    OrderIsReachable(w, requirements, order, p);
    forall k' | k' != order[p] && Reachable(w, requirements, k') && Claims(w, k', n)
      ensures ReachableAround(w, requirements, order[p], k')
    {
      OrderHoldsReachable(w, requirements, order, k');
      var i: nat :| i < |order| && order[i] == k';
      EarlierIsAround(w, requirements, order, p, i);
    }
  }

  // ---------------------------------------------------------------- putting a claimant last

  function Keys(order: seq<Key>): set<Key> {
    set k | k in order
  }

  lemma {:induction false} FewerLeft(order: seq<Key>, k: Key, allowed: set<Key>)
    requires k in allowed && k !in order
    ensures |allowed - Keys(order + [k])| < |allowed - Keys(order)|
  {
    assert allowed - Keys(order + [k]) == (allowed - Keys(order)) - {k};
  }

  /** `longer` goes on from `order` with allowed keys only. */
  predicate GoesOn(order: seq<Key>, longer: seq<Key>, allowed: set<Key>) {
    order <= longer && forall i :: |order| <= i < |longer| ==> longer[i] in allowed
  }

  lemma {:induction false} GoesOnFrom(order: seq<Key>, k: Key, longer: seq<Key>, allowed: set<Key>)
    requires k in allowed && GoesOn(order + [k], longer, allowed)
    ensures GoesOn(order, longer, allowed)
  {
    assert longer[|order|] == (order + [k])[|order|];
    assert longer[..|order|] == longer[..|order| + 1][..|order|] == order;
  }

  /** Visits as much as it can within `allowed`. */
  lemma {:induction false} Extend(w: World, requirements: seq<Requirement>, order: seq<Key>, allowed: set<Key>) returns (longer: seq<Key>)
    requires Partial(w, requirements, order)
    ensures Partial(w, requirements, longer) && GoesOn(order, longer, allowed)
    ensures forall k :: k in allowed && Called(w, requirements, longer, k) ==> k in longer
    decreases |allowed - Keys(order)|
  {
    if k :| k in allowed && k !in order && Called(w, requirements, order, k) {
      PartialSnoc(w, requirements, order, k);
      FewerLeft(order, k, allowed);
      longer := Extend(w, requirements, order + [k], allowed);
      GoesOnFrom(order, k, longer, allowed);
    } else {
      longer := order;
    }
  }

  lemma {:induction false} PathAroundVisited(w: World, requirements: seq<Requirement>, order: seq<Key>, k: Key, path: seq<Key>, i: nat)
    requires forall x :: x in Universe(w, requirements) - {k} && Called(w, requirements, order, x) ==> x in order
    requires IsPath(w, requirements, path) && i < |path| && k !in path[..i + 1]
    ensures path[i] in order
  {
    assert path[i] == path[..i + 1][i];
    PathReachable(w, requirements, path, i);
    ReachableInUniverse(w, requirements, path[i]);
    if i > 0 {
      assert forall x :: x in path[..i] ==> x in path[..i + 1];
      PathAroundVisited(w, requirements, order, k, path, i - 1);
      assert Edge(w, path[i - 1], path[i]);
    }
  }

  lemma {:induction false} PathReachable(w: World, requirements: seq<Requirement>, path: seq<Key>, i: nat)
    requires IsPath(w, requirements, path) && i < |path|
    ensures Reachable(w, requirements, path[i])
  {
    var shorter := path[..i + 1];
    assert IsPath(w, requirements, shorter) && shorter[|shorter| - 1] == path[i];
  }

  /** When everything reachable around `k` has been visited, `k` is next. */
  lemma {:induction false} CalledAfterAround(w: World, requirements: seq<Requirement>, order: seq<Key>, k: Key)
    requires Reachable(w, requirements, k)
    requires forall x :: x in Universe(w, requirements) - {k} && Called(w, requirements, order, x) ==> x in order
    ensures Called(w, requirements, order, k)
  {
    var path :| IsPath(w, requirements, path) && path[|path| - 1] == k;
    var i := 0;
    while path[i] != k
      invariant i < |path| && k !in path[..i]
      decreases |path| - i
    {
      assert path[..i + 1] == path[..i] + [path[i]];
      i := i + 1;
    }
    if i > 0 {
      PathAroundVisited(w, requirements, order, k, path, i - 1);
      assert Edge(w, path[i - 1], path[i]);
    }
  }

  lemma {:induction false} OrderWithLast(w: World, requirements: seq<Requirement>, n: string, k: Key) returns (order: seq<Key>)
    requires CanBeLast(w, requirements, n, k)
    ensures IsOrder(w, requirements, order)
    ensures n in PinsOf(w, order) && PinsOf(w, order)[n] == w.installed[k.name].version
  {
    var universe := Universe(w, requirements);
    var around := Extend(w, requirements, [], universe - {k});
    assert k !in around;
    CalledAfterAround(w, requirements, around, k);
    PartialSnoc(w, requirements, around, k);
    order := Extend(w, requirements, around + [k], universe);
    ExtendedIsOrder(w, requirements, order);
    var p := |around|;
    assert order[p] == k && forall i :: 0 <= i < p ==> order[i] == around[i];
    forall j: nat | p < j < |order|
      ensures !Claims(w, order[j], n)
    {
      if Claims(w, order[j], n) {
        OrderIsReachable(w, requirements, order, j);
        var path :| Avoids(w, requirements, k, path) && path[|path| - 1] == order[j];
        assert path[..|path|] == path;
        PathAroundVisited(w, requirements, around, k, path, |path| - 1);
      }
    }
    assert LastClaim(w, order, n, p);
    LastClaimPins(w, order, n);
  }

  lemma {:induction false} ExtendedIsOrder(w: World, requirements: seq<Requirement>, order: seq<Key>)
    requires Partial(w, requirements, order)
    requires forall k :: k in Universe(w, requirements) && Called(w, requirements, order, k) ==> k in order
    ensures IsOrder(w, requirements, order)
  {
    forall k | IsRoot(w, requirements, k)
      ensures k in order
    {
      RootIsReachable(w, requirements, k);
      ReachableInUniverse(w, requirements, k);
      assert Called(w, requirements, order, k);
    }
    forall a, b | a in order && Edge(w, a, b)
      ensures b in order
    {
      var i: nat :| i < |order| && order[i] == a;
      OrderIsReachable(w, requirements, order, i);
      EdgeExtendsReach(w, requirements, a, b);
      ReachableInUniverse(w, requirements, b);
      assert Called(w, requirements, order, b);
    }
  }

  // ---------------------------------------------------------------- exactly when the order matters

  ghost predicate PinsIndependent(w: World, requirements: seq<Requirement>) {
    forall o, o' :: IsOrder(w, requirements, o) && IsOrder(w, requirements, o') ==> PinsOf(w, o) == PinsOf(w, o')
  }

  ghost predicate NoRivals(w: World, requirements: seq<Requirement>) {
    forall n, k, k' :: CanBeLast(w, requirements, n, k) && CanBeLast(w, requirements, n, k') ==>
      w.installed[k.name].version == w.installed[k'.name].version
  }

  lemma {:induction false} SamePin(w: World, requirements: seq<Requirement>, o: seq<Key>, o': seq<Key>, n: string)
    requires NoRivals(w, requirements) && IsOrder(w, requirements, o) && IsOrder(w, requirements, o')
    requires n in PinsOf(w, o)
    ensures n in PinsOf(w, o') && PinsOf(w, o)[n] == PinsOf(w, o')[n]
  {
    LastClaimPins(w, o, n);
    LastClaimPins(w, o', n);
    var p: nat :| LastClaim(w, o, n, p);
    OrderHoldsReachable(w, requirements, o, o[p]);
    OrderHoldsReachable(w, requirements, o', o[p]);
    var i: nat :| i < |o'| && o'[i] == o[p];
    var p' := LastOf(w, o', n, i);
    LastClaimantCanBeLast(w, requirements, o, n, p);
    LastClaimantCanBeLast(w, requirements, o', n, p');
  }

  lemma {:induction false} LastOf(w: World, order: seq<Key>, n: string, i: nat) returns (p: nat)
    requires i < |order| && Claims(w, order[i], n)
    ensures LastClaim(w, order, n, p)
  {
    p := |order| - 1;
    while !Claims(w, order[p], n)
      invariant i <= p < |order| && forall j: nat :: p < j < |order| ==> !Claims(w, order[j], n)
      decreases p
    {
      p := p - 1;
    }
  }

  /** The pins do not depend on the order of the walk exactly when no two claimants of one name with
      different versions can each be visited last. */
  lemma {:induction false} PinsIndependentIffNoRivals(w: World, requirements: seq<Requirement>)
    ensures PinsIndependent(w, requirements) <==> NoRivals(w, requirements)
  {
    if NoRivals(w, requirements) {
      forall o, o' | IsOrder(w, requirements, o) && IsOrder(w, requirements, o')
        ensures PinsOf(w, o) == PinsOf(w, o')
      {
        forall n
          ensures n in PinsOf(w, o) <==> n in PinsOf(w, o')
          ensures n in PinsOf(w, o) ==> PinsOf(w, o)[n] == PinsOf(w, o')[n]
        {
          if n in PinsOf(w, o) { SamePin(w, requirements, o, o', n); }
          if n in PinsOf(w, o') { SamePin(w, requirements, o', o, n); }
        }
      }
    } else {
      var n, k, k' :| CanBeLast(w, requirements, n, k) && CanBeLast(w, requirements, n, k')
                      && w.installed[k.name].version != w.installed[k'.name].version;
      var o := OrderWithLast(w, requirements, n, k);
      var o' := OrderWithLast(w, requirements, n, k');
    }
  }

  /** Without a conflict there are no rivals, so the order of the walk does not matter. */
  lemma {:induction false} NoConflictIndependent(w: World, requirements: seq<Requirement>)
    requires NoConflict(w, requirements)
    ensures PinsIndependent(w, requirements)
  {
    forall n, k, k' | CanBeLast(w, requirements, n, k) && CanBeLast(w, requirements, n, k')
      ensures w.installed[k.name].version == w.installed[k'.name].version
    {
      assert Pins(w, requirements, k, n, w.installed[k.name].version);
      assert Pins(w, requirements, k', n, w.installed[k'.name].version);
    }
    PinsIndependentIffNoRivals(w, requirements);
  }

  // ---------------------------------------------------------------- listing the same in another order

  lemma {:induction false} ListingKeepsEdges(w: World, requirements: seq<Requirement>, w': World, requirements': seq<Requirement>)
    requires SameUpToOrder(w, w') && SameMembers(requirements, requirements')
    ensures forall a, b :: Edge(w, a, b) ==> Edge(w', a, b)
    ensures forall k :: IsRoot(w, requirements, k) ==> IsRoot(w', requirements', k)
  {
    forall a, b | Edge(w, a, b) ensures Edge(w', a, b) {
      var r :| r in w.installed[a.name].requires_ && Applies(w, r, a.extras) && b == KeyOf(w, r);
      assert r in w'.installed[a.name].requires_ && Applies(w', r, a.extras);
    }
    forall k | IsRoot(w, requirements, k) ensures IsRoot(w', requirements', k) {
      var r :| r in requirements && Applies(w, r, {}) && k == KeyOf(w, r);
      assert r in requirements' && Applies(w', r, {});
    }
  }

  lemma {:induction false} ListingKeepsPins(w: World, w': World, order: seq<Key>)
    requires SameUpToOrder(w, w')
    ensures PinsOf(w', order) == PinsOf(w, order)
  {
    if order != [] {
      ListingKeepsPins(w, w', order[..|order| - 1]);
    }
  }

  lemma {:induction false} ListingKeepsOrders(
    w: World, requirements: seq<Requirement>, w': World, requirements': seq<Requirement>, order: seq<Key>)
    requires SameUpToOrder(w, w') && SameMembers(requirements, requirements') && IsOrder(w, requirements, order)
    ensures IsOrder(w', requirements', order)
  {
    ListingKeepsEdges(w, requirements, w', requirements');
    ListingKeepsEdges(w', requirements', w, requirements);
    forall i: nat | i < |order| ensures Justified(w', requirements', order, i) {
      assert Justified(w, requirements, order, i);
    }
  }

  /** Whoever lists the same roots, requirements and metadata in whatever order gets the same pins. */
  ghost predicate ListingDoesNotMatter(w: World, requirements: seq<Requirement>) {
    forall w': World, requirements': seq<Requirement>, o, o' ::
      SameUpToOrder(w, w') && SameMembers(requirements, requirements') && IsOrder(w, requirements, o) && IsOrder(w', requirements', o')
      ==> PinsOf(w, o) == PinsOf(w', o')
  }

  /** Listing roots, requirements or metadata in another order changes no pin exactly when there are no
      rivals. */
  lemma {:induction false} ListingMattersIffRivals(w: World, requirements: seq<Requirement>)
    ensures ListingDoesNotMatter(w, requirements) <==> NoRivals(w, requirements)
  {
    PinsIndependentIffNoRivals(w, requirements);
    if NoRivals(w, requirements) {
      forall w': World, requirements': seq<Requirement>, o, o' |
        SameUpToOrder(w, w') && SameMembers(requirements, requirements') && IsOrder(w, requirements, o) && IsOrder(w', requirements', o')
        ensures PinsOf(w, o) == PinsOf(w', o')
      {
        ListingKeepsOrders(w', requirements', w, requirements, o');
        ListingKeepsPins(w, w', o');
      }
    }
    if ListingDoesNotMatter(w, requirements) {
      forall o, o' | IsOrder(w, requirements, o) && IsOrder(w, requirements, o')
        ensures PinsOf(w, o) == PinsOf(w, o')
      {
        assert SameUpToOrder(w, w) && SameMembers(requirements, requirements);
      }
    }
  }

  lemma {:induction false} SameMissing(
    w: World, requirements: seq<Requirement>, w': World, requirements': seq<Requirement>, n: string)
    requires SameUpToOrder(w, w') && SameMembers(requirements, requirements') && IsMissingRoot(w, requirements, n)
    ensures IsMissingRoot(w', requirements', n)
  {
    var r :| r in requirements && Applies(w, r, {}) && n == w.canon(r.name);
    assert r in requirements' && Applies(w', r, {});
  }

  /** Without rivals what the closure returns, pins and missing names, does not depend on the order in which
      roots, requirements or installed metadata are listed. */
  lemma {:induction false} LockIgnoresOrder(
    w: World, requirements: seq<Requirement>, w': World, requirements': seq<Requirement>,
    pinned: map<string, string>, missing: seq<string>, pinned': map<string, string>, missing': seq<string>)
    requires SameUpToOrder(w, w') && SameMembers(requirements, requirements') && NoRivals(w, requirements)
    requires exists o :: IsOrder(w, requirements, o) && pinned == PinsOf(w, o)
    requires exists o :: IsOrder(w', requirements', o) && pinned' == PinsOf(w', o)
    requires Ascending(missing) && forall n :: n in missing <==> IsMissingRoot(w, requirements, n)
    requires Ascending(missing') && forall n :: n in missing' <==> IsMissingRoot(w', requirements', n)
    ensures pinned == pinned' && missing == missing'
  {
    ListingMattersIffRivals(w, requirements);
    forall n ensures n in missing <==> n in missing' {
      if n in missing { SameMissing(w, requirements, w', requirements', n); }
      if n in missing' { SameMissing(w', requirements', w, requirements, n); }
    }
    AscendingIsDetermined(missing, missing');
  }

  // ---------------------------------------------------------------- two worlds

  /** Two roots installed under one canonical name: either can be last, and the pins differ. */
  lemma {:induction false} RivalRootsDisagree(w: World, requirements: seq<Requirement>, n: string, k: Key, k': Key)
    requires IsRoot(w, requirements, k) && IsRoot(w, requirements, k') && k != k'
    requires Claims(w, k, n) && Claims(w, k', n) && w.installed[k.name].version != w.installed[k'.name].version
    requires forall x :: Reachable(w, requirements, x) && Claims(w, x, n) ==> x == k || x == k'
    ensures !PinsIndependent(w, requirements)
  {
    RootIsReachable(w, requirements, k);
    RootIsReachable(w, requirements, k');
    assert Avoids(w, requirements, k, [k']) && [k'][|[k']| - 1] == k';
    assert Avoids(w, requirements, k', [k]) && [k][|[k]| - 1] == k;
    assert CanBeLast(w, requirements, n, k) && CanBeLast(w, requirements, n, k');
    PinsIndependentIffNoRivals(w, requirements);
  }

  /** A conflict is harmless when one claimant is required only by the other: then it comes last in every
      order.  Here every path to `k'` passes through `k`, and nothing else claims the name. */
  lemma {:induction false} RequiredClaimantWins(w: World, requirements: seq<Requirement>, n: string, k: Key, k': Key, order: seq<Key>)
    requires IsOrder(w, requirements, order) && k != k' && Reachable(w, requirements, k')
    requires Claims(w, k, n) && Claims(w, k', n)
    requires forall x :: Reachable(w, requirements, x) && Claims(w, x, n) ==> x == k || x == k'
    requires !ReachableAround(w, requirements, k, k')
    ensures n in PinsOf(w, order) && PinsOf(w, order)[n] == w.installed[k'.name].version
  {
    OrderHoldsReachable(w, requirements, order, k');
    var i: nat :| i < |order| && order[i] == k';
    var p := LastOf(w, order, n, i);
    OrderHoldsReachable(w, requirements, order, order[p]);
    LastClaimantCanBeLast(w, requirements, order, n, p);
    LastClaimPins(w, order, n);
  }

  function Always(marker: string, target: Target, extra: string): bool { true }

  const SAMPLE_WORLD := World(
    name => name, Always,
    map["a" := Distribution("x", "1", []), "b" := Distribution("x", "2", [])])
  const SAMPLE_ROOTS := [Requirement("a", {}, None), Requirement("b", {}, None)]

  lemma {:induction false} SampleReachable(k: Key)
    ensures IsRoot(SAMPLE_WORLD, SAMPLE_ROOTS, Key("a", {})) && IsRoot(SAMPLE_WORLD, SAMPLE_ROOTS, Key("b", {}))
    ensures Reachable(SAMPLE_WORLD, SAMPLE_ROOTS, k) ==> k == Key("a", {}) || k == Key("b", {})
  {
    assert SAMPLE_ROOTS[0] in SAMPLE_ROOTS && SAMPLE_ROOTS[1] in SAMPLE_ROOTS;
    assert KeyOf(SAMPLE_WORLD, SAMPLE_ROOTS[0]) == Key("a", {}) && KeyOf(SAMPLE_WORLD, SAMPLE_ROOTS[1]) == Key("b", {});
    if Reachable(SAMPLE_WORLD, SAMPLE_ROOTS, k) {
      ClosedSetHoldsReachable(SAMPLE_WORLD, SAMPLE_ROOTS, {Key("a", {}), Key("b", {})}, k);
    }
  }

  /** An environment in which two visiting orders of the walk pin different versions. */
  lemma {:induction false} SampleOrdersDisagree()
    ensures !PinsIndependent(SAMPLE_WORLD, SAMPLE_ROOTS)
  {
    SampleReachable(Key("a", {}));
    forall x | Reachable(SAMPLE_WORLD, SAMPLE_ROOTS, x)
      ensures x == Key("a", {}) || x == Key("b", {})
    {
      SampleReachable(x);
    }
    RivalRootsDisagree(SAMPLE_WORLD, SAMPLE_ROOTS, "x", Key("a", {}), Key("b", {}));
  }
}
