/**
 `closure` walks the requirements of a tested environment with a last-in first-out worklist of
 (canonical name, extras) states and pins what it meets.  Here the walk is proved to compute exactly
 the marker-guarded reachability relation, whatever order the worklist happens to take, together with
 the exact condition under which the pins themselves do not depend on that order.
 */
module LockConstraints {
  import opened Wrappers
  import opened Ordering

  /** The image is built for two machines; a marker counts when it holds on either. */
  datatype Target = X8664 | Aarch64

  const TARGETS: seq<Target> := [X8664, Aarch64]

  datatype Requirement = Requirement(name: string, extras: set<string>, marker: Option<string>)

  datatype Distribution = Distribution(name: string, version: string, requires_: seq<Requirement>)

  /** The libraries the walk calls: name canonicalization, marker evaluation, and the environment's
      installed distributions, which are looked up by canonical name. */
  datatype World = World(
    canon: string -> string,
    evaluate: (string, Target, string) -> bool,
    installed: map<string, Distribution>)

  datatype Key = Key(name: string, extras: set<string>)

  function KeyOf(w: World, r: Requirement): Key {
    Key(w.canon(r.name), r.extras)
  }

  /** `active_extras or {""}` */
  function EffectiveExtras(extras: set<string>): set<string> {
    if extras == {} then {""} else extras
  }

  predicate Applies(w: World, r: Requirement, active: set<string>) {
    r.marker.None? ||
    exists t, e :: t in TARGETS && e in EffectiveExtras(active) && w.evaluate(r.marker.value, t, e)
  }

  // ---------------------------------------------------------------- the declarative side

  /** Installing `k` pulls in `k'`. */
  ghost predicate Edge(w: World, k: Key, k': Key) {
    k.name in w.installed &&
    exists r :: r in w.installed[k.name].requires_ && Applies(w, r, k.extras) && k' == KeyOf(w, r)
  }

  ghost predicate IsRoot(w: World, requirements: seq<Requirement>, k: Key) {
    exists r :: r in requirements && Applies(w, r, {}) && k == KeyOf(w, r)
  }

  ghost predicate IsPath(w: World, requirements: seq<Requirement>, path: seq<Key>) {
    path != [] && IsRoot(w, requirements, path[0]) &&
    forall i :: 0 < i < |path| ==> Edge(w, path[i - 1], path[i])
  }

  ghost predicate Reachable(w: World, requirements: seq<Requirement>, k: Key) {
    exists path :: IsPath(w, requirements, path) && path[|path| - 1] == k
  }

  /** `k` is reached and installed, under the name `n` with version `v`. */
  ghost predicate Pins(w: World, requirements: seq<Requirement>, k: Key, n: string, v: string) {
    Reachable(w, requirements, k) && k.name in w.installed &&
    n == w.canon(w.installed[k.name].name) && v == w.installed[k.name].version
  }

  /** What a reader expects of the pins: one for every reached installed distribution's name, no
      others, each at a version such a distribution has. */
  ghost predicate PinsExactly(w: World, requirements: seq<Requirement>, pinned: map<string, string>) {
    (forall n, v, k :: Pins(w, requirements, k, n, v) ==> n in pinned) &&
    (forall n :: n in pinned ==> exists k :: Pins(w, requirements, k, n, pinned[n]))
  }

  ghost predicate IsMissingRoot(w: World, requirements: seq<Requirement>, n: string) {
    n !in w.installed && exists r :: r in requirements && Applies(w, r, {}) && n == w.canon(r.name)
  }

  // ---------------------------------------------------------------- reachability

  lemma {:induction false} RootIsReachable(w: World, requirements: seq<Requirement>, k: Key)
    requires IsRoot(w, requirements, k)
    ensures Reachable(w, requirements, k)
  {
    assert IsPath(w, requirements, [k]);
    assert [k][|[k]| - 1] == k;
  }

  lemma {:induction false} EdgeExtendsReach(w: World, requirements: seq<Requirement>, k: Key, k': Key)
    requires Reachable(w, requirements, k) && Edge(w, k, k')
    ensures Reachable(w, requirements, k')
  {
    var path :| IsPath(w, requirements, path) && path[|path| - 1] == k;
    var longer := path + [k'];
    assert IsPath(w, requirements, longer);
    assert longer[|longer| - 1] == k';
  }

  /** A set of keys that holds the roots and is closed under edges holds everything reachable. */
  lemma {:induction false} ClosedSetHoldsReachable(w: World, requirements: seq<Requirement>, seen: set<Key>, k: Key)
    requires forall r :: IsRoot(w, requirements, r) ==> r in seen
    requires forall a, b :: a in seen && Edge(w, a, b) ==> b in seen
    requires Reachable(w, requirements, k)
    ensures k in seen
  {
    var path :| IsPath(w, requirements, path) && path[|path| - 1] == k;
    PathStaysInside(w, requirements, seen, path, |path| - 1);
  }

  lemma {:induction false} PathStaysInside(
    w: World, requirements: seq<Requirement>, seen: set<Key>, path: seq<Key>, i: nat)
    requires forall r :: IsRoot(w, requirements, r) ==> r in seen
    requires forall a, b :: a in seen && Edge(w, a, b) ==> b in seen
    requires IsPath(w, requirements, path) && i < |path|
    ensures path[i] in seen
  {
    if i > 0 {
      PathStaysInside(w, requirements, seen, path, i - 1);
      assert Edge(w, path[i - 1], path[i]);
    }
  }

  // ---------------------------------------------------------------- visiting orders

  ghost predicate Justified(w: World, requirements: seq<Requirement>, order: seq<Key>, i: nat)
    requires i < |order|
  {
    IsRoot(w, requirements, order[i]) || exists j: nat :: j < i && Edge(w, order[j], order[i])
  }

  ghost predicate Partial(w: World, requirements: seq<Requirement>, order: seq<Key>) {
    && (forall i, j :: 0 <= i < j < |order| ==> order[i] != order[j])
    && (forall i: nat :: i < |order| ==> Justified(w, requirements, order, i))
  }

  /** Every root, and every successor of a visited key, is visited. */
  ghost predicate Closed(w: World, requirements: seq<Requirement>, order: seq<Key>) {
    && (forall k :: IsRoot(w, requirements, k) ==> k in order)
    && (forall a, b :: a in order && Edge(w, a, b) ==> b in order)
  }

  ghost predicate IsOrder(w: World, requirements: seq<Requirement>, order: seq<Key>) {
    Partial(w, requirements, order) && Closed(w, requirements, order)
  }

  lemma {:induction false} PartialSnoc(w: World, requirements: seq<Requirement>, order: seq<Key>, k: Key)
    requires Partial(w, requirements, order) && k !in order
    requires IsRoot(w, requirements, k) || exists a :: a in order && Edge(w, a, k)
    ensures Partial(w, requirements, order + [k])
  {
    var longer := order + [k];
    forall i: nat | i < |longer|
      ensures Justified(w, requirements, longer, i)
    {
      if i < |order| {
        assert Justified(w, requirements, order, i);
        if !IsRoot(w, requirements, longer[i]) {
          var j: nat :| j < i && Edge(w, order[j], order[i]);
          assert longer[j] == order[j];
        }
      } else if !IsRoot(w, requirements, k) {
        var a :| a in order && Edge(w, a, k);
        var j: nat :| j < |order| && order[j] == a;
        assert longer[j] == a;
      }
    }
  }

  /** The pins a walk leaves: each visit of an installed distribution overwrites its name's pin. */
  function PinsOf(w: World, order: seq<Key>): map<string, string> {
    if order == [] then map[]
    else
      var before, k := PinsOf(w, order[..|order| - 1]), order[|order| - 1];
      if k.name in w.installed then before[w.canon(w.installed[k.name].name) := w.installed[k.name].version] else before
  }

  // ---------------------------------------------------------------- the walk

  /** Every key the walk can ever see: the termination argument's finite universe. */
  ghost function Universe(w: World, requirements: seq<Requirement>): set<Key> {
    (set r | r in requirements :: KeyOf(w, r)) +
    (set n, r | n in w.installed && r in w.installed[n].requires_ :: KeyOf(w, r))
  }

  predicate PendingKey(w: World, pending: seq<Requirement>, k: Key) {
    exists i :: 0 <= i < |pending| && KeyOf(w, pending[i]) == k
  }

  /** Nothing outside the reachable keys is pending or seen. */
  ghost predicate Sound(w: World, requirements: seq<Requirement>, pending: seq<Requirement>, seen: set<Key>) {
    && (forall i :: 0 <= i < |pending| ==>
          KeyOf(w, pending[i]) in Universe(w, requirements) &&
          Reachable(w, requirements, KeyOf(w, pending[i])))
    && seen <= Universe(w, requirements)
    && (forall k :: k in seen ==> Reachable(w, requirements, k))
  }

  /** Every root, and every successor of a seen key, is seen or still pending. */
  ghost predicate Covered(w: World, requirements: seq<Requirement>, pending: seq<Requirement>, seen: set<Key>) {
    && (forall r :: IsRoot(w, requirements, r) ==> r in seen || PendingKey(w, pending, r))
    && (forall a, b :: a in seen && Edge(w, a, b) ==> b in seen || PendingKey(w, pending, b))
  }

  ghost predicate Witnesses(w: World, k: Key, n: string, v: string) {
    k.name in w.installed && w.canon(w.installed[k.name].name) == n && w.installed[k.name].version == v
  }

  ghost predicate PinnedFrom(w: World, seen: set<Key>, pinned: map<string, string>) {
    && (forall k :: k in seen && k.name in w.installed ==> w.canon(w.installed[k.name].name) in pinned)
    && (forall n :: n in pinned ==> exists k :: k in seen && Witnesses(w, k, n, pinned[n]))
  }

  ghost predicate MissingFrom(w: World, roots: set<string>, seen: set<Key>, missing: seq<string>) {
    forall n :: n in missing <==> n in roots && n !in w.installed && SeenName(seen, n)
  }

  ghost predicate SeenName(seen: set<Key>, n: string) {
    exists k :: k in seen && k.name == n
  }

  /** The invariant of the walk between two pops. */
  ghost predicate WalkInv(
    w: World, requirements: seq<Requirement>, roots: set<string>,
    pending: seq<Requirement>, seen: set<Key>, pinned: map<string, string>, missing: seq<string>)
  {
    && Sound(w, requirements, pending, seen)
    && Covered(w, requirements, pending, seen)
    && PinnedFrom(w, seen, pinned)
    && MissingFrom(w, roots, seen, missing)
  }

  method ApplicableRoots(w: World, requirements: seq<Requirement>) returns (pending: seq<Requirement>)
    ensures forall r :: r in pending <==> r in requirements && Applies(w, r, {})
  {
    pending := [];
    for i := 0 to |requirements|
      invariant forall r :: r in pending <==> r in requirements[..i] && Applies(w, r, {})
    {
      assert requirements[..i + 1] == requirements[..i] + [requirements[i]];
      if Applies(w, requirements[i], {}) {
        pending := pending + [requirements[i]];
      }
    }
    assert requirements[..|requirements|] == requirements;
  }

  /** Appends the requirements of one distribution that apply under the active extras. */
  method PushRequirements(w: World, raw: seq<Requirement>, active: set<string>, before: seq<Requirement>)
    returns (pending: seq<Requirement>)
    ensures before <= pending
    ensures forall r :: r in pending[|before|..] <==> r in raw && Applies(w, r, active)
  {
    pending := before;
    for i := 0 to |raw|
      invariant before <= pending
      invariant forall r :: r in pending[|before|..] <==> r in raw[..i] && Applies(w, r, active)
    {
      assert raw[..i + 1] == raw[..i] + [raw[i]];
      if Applies(w, raw[i], active) {
        assert (pending + [raw[i]])[|before|..] == pending[|before|..] + [raw[i]];
        pending := pending + [raw[i]];
      }
    }
    assert raw[..|raw|] == raw;
  }

  /** The invariant of the walk, and the order in which it has visited the keys so far. */
  ghost predicate Walking(
    w: World, requirements: seq<Requirement>, roots: set<string>, order: seq<Key>,
    pending: seq<Requirement>, seen: set<Key>, pinned: map<string, string>, missing: seq<string>)
  {
    WalkInv(w, requirements, roots, pending, seen, pinned, missing) && OrderInv(w, requirements, order, pending, seen, pinned)
  }

  /** One turn of the loop: pops the last entry, and skips, notes or visits it. */
  method PopLast(
    w: World, ghost requirements: seq<Requirement>, roots: set<string>, ghost order: seq<Key>,
    pending: seq<Requirement>, seen: set<Key>, pinned: map<string, string>, missing: seq<string>)
    returns (ghost order': seq<Key>, pending': seq<Requirement>, seen': set<Key>, pinned': map<string, string>, missing': seq<string>)
    requires Walking(w, requirements, roots, order, pending, seen, pinned, missing) && pending != []
    ensures Walking(w, requirements, roots, order', pending', seen', pinned', missing')
    ensures (seen' == seen && pending' == pending[..|pending| - 1]) ||
            |Universe(w, requirements) - seen'| < |Universe(w, requirements) - seen|
  {
    var key := KeyOf(w, pending[|pending| - 1]);
    if key in seen {
      PopSeen(w, requirements, roots, pending, seen, pinned, missing);
      SeenKeepsOrder(w, requirements, order, pending, seen, pinned);
      return order, pending[..|pending| - 1], seen, pinned, missing;
    }
    Shrinks(Universe(w, requirements), seen, key);
    order', seen' := order + [key], seen + {key};
    if key.name !in w.installed {
      pending', pinned' := pending[..|pending| - 1], pinned;
      missing' := if key.name in roots then missing + [key.name] else missing;
      PopAbsent(w, requirements, roots, pending, seen, pinned, missing, missing');
      VisitKeepsOrder(w, requirements, order, key, pending, pending', seen, pinned);
      return;
    }
    var distribution := w.installed[key.name];
    pinned', missing' := pinned[w.canon(distribution.name) := distribution.version], missing;
    pending' := PushRequirements(w, distribution.requires_, key.extras, pending[..|pending| - 1]);
    PopInstalled(w, requirements, roots, pending, pending', seen, pinned, missing);
    VisitKeepsOrder(w, requirements, order, key, pending, pending', seen, pinned);
  }

  /** The walk itself, from the applicable roots to the empty worklist. */
  method WalkAll(w: World, ghost requirements: seq<Requirement>, roots: set<string>, initial: seq<Requirement>)
    returns (ghost order: seq<Key>, ghost seen: set<Key>, pinned: map<string, string>, missing: seq<string>)
    requires Walking(w, requirements, roots, [], initial, {}, map[], [])
    ensures Walking(w, requirements, roots, order, [], seen, pinned, missing)
  {
    order, pinned, missing := [], map[], [];
    var pending, visited := initial, {};
    while pending != []
      invariant Walking(w, requirements, roots, order, pending, visited, pinned, missing)
      decreases |Universe(w, requirements) - visited|, |pending|
    {
      order, pending, visited, pinned, missing := PopLast(w, requirements, roots, order, pending, visited, pinned, missing);
    }
    seen := visited;
  }

  method Closure(w: World, requirements: seq<Requirement>)
    returns (pinned: map<string, string>, missing: seq<string>)
    ensures PinsExactly(w, requirements, pinned)
    ensures exists order :: IsOrder(w, requirements, order) && pinned == PinsOf(w, order)
    ensures forall n :: n in missing <==> IsMissingRoot(w, requirements, n)
    ensures Ascending(missing)
  {
    var pending := ApplicableRoots(w, requirements);
    var roots := set r | r in pending :: w.canon(r.name);
    InitialWalk(w, requirements, roots, pending);
    InitialOrder(w, requirements, pending);
    ghost var order, seen;
    order, seen, pinned, missing := WalkAll(w, requirements, roots, pending);
    WalkDone(w, requirements, roots, seen, pinned, missing);
    OrderDone(w, requirements, order, seen, pinned);
    SortedUniqueAscending(missing);
    missing := SortedUnique(missing);
  }

  lemma {:induction false} InitialOrder(w: World, requirements: seq<Requirement>, pending: seq<Requirement>)
    requires forall r :: r in pending <==> r in requirements && Applies(w, r, {})
    ensures OrderInv(w, requirements, [], pending, {}, map[])
  {
    forall i | 0 <= i < |pending| ensures IsRoot(w, requirements, KeyOf(w, pending[i])) {
      assert pending[i] in pending;
    }
  }

  /** What is pending was called for by a root or a visited key. */
  ghost predicate Called(w: World, requirements: seq<Requirement>, order: seq<Key>, k: Key) {
    IsRoot(w, requirements, k) || exists a :: a in order && Edge(w, a, k)
  }

  ghost predicate PendingCalled(w: World, requirements: seq<Requirement>, order: seq<Key>, pending: seq<Requirement>) {
    forall i :: 0 <= i < |pending| ==> Called(w, requirements, order, KeyOf(w, pending[i]))
  }

  /** The visits so far, as an order, are what has been seen and what has been pinned. */
  ghost predicate Visited(w: World, requirements: seq<Requirement>, order: seq<Key>, seen: set<Key>, pinned: map<string, string>) {
    && Partial(w, requirements, order)
    && (forall k :: k in order <==> k in seen)
    && pinned == PinsOf(w, order)
  }

  lemma {:induction false} VisitNext(w: World, requirements: seq<Requirement>, order: seq<Key>, seen: set<Key>,
    pinned: map<string, string>, pending: seq<Requirement>)
    requires Visited(w, requirements, order, seen, pinned) && PendingCalled(w, requirements, order, pending)
    requires pending != [] && KeyOf(w, pending[|pending| - 1]) !in seen
    ensures
      var key := KeyOf(w, pending[|pending| - 1]);
      Visited(w, requirements, order + [key], seen + {key},
              if key.name in w.installed
              then pinned[w.canon(w.installed[key.name].name) := w.installed[key.name].version] else pinned)
  {
    var key := KeyOf(w, pending[|pending| - 1]);
    assert Called(w, requirements, order, key);
    PartialSnoc(w, requirements, order, key);
    assert (order + [key])[..|order|] == order;
  }

  ghost predicate OrderInv(w: World, requirements: seq<Requirement>, order: seq<Key>, pending: seq<Requirement>,
    seen: set<Key>, pinned: map<string, string>)
  {
    PendingCalled(w, requirements, order, pending) && Visited(w, requirements, order, seen, pinned)
  }

  lemma {:induction false} SeenKeepsOrder(w: World, requirements: seq<Requirement>, order: seq<Key>,
    pending: seq<Requirement>, seen: set<Key>, pinned: map<string, string>)
    requires OrderInv(w, requirements, order, pending, seen, pinned) && pending != []
    ensures OrderInv(w, requirements, order, pending[..|pending| - 1], seen, pinned)
  {
    CalledAfterPop(w, requirements, order, order, pending, pending[..|pending| - 1]);
  }

  /** A requirement of the visited distribution that applies under the visited extras. */
  predicate RequiredBy(w: World, key: Key, r: Requirement) {
    key.name in w.installed && r in w.installed[key.name].requires_ && Applies(w, r, key.extras)
  }

  lemma {:induction false} VisitKeepsOrder(w: World, requirements: seq<Requirement>, order: seq<Key>, key: Key,
    pending: seq<Requirement>, pending': seq<Requirement>, seen: set<Key>, pinned: map<string, string>)
    requires OrderInv(w, requirements, order, pending, seen, pinned)
    requires pending != [] && pending[..|pending| - 1] <= pending'
    requires key == KeyOf(w, pending[|pending| - 1]) && key !in seen
    requires forall r :: r in pending'[|pending| - 1..] ==> RequiredBy(w, key, r)
    ensures OrderInv(w, requirements, order + [key], pending', seen + {key},
                     if key.name in w.installed
                     then pinned[w.canon(w.installed[key.name].name) := w.installed[key.name].version] else pinned)
  {
    VisitNext(w, requirements, order, seen, pinned, pending);
    forall r | r in pending'[|pending| - 1..]
      ensures Edge(w, key, KeyOf(w, r))
    {
      assert RequiredBy(w, key, r);
    }
    assert key in order + [key];
    CalledAfterPop(w, requirements, order, order + [key], pending, pending');
  }

  lemma {:induction false} OrderDone(w: World, requirements: seq<Requirement>, order: seq<Key>, seen: set<Key>,
    pinned: map<string, string>)
    requires OrderInv(w, requirements, order, [], seen, pinned) && Covered(w, requirements, [], seen)
    ensures IsOrder(w, requirements, order) && pinned == PinsOf(w, order)
  {
    forall k ensures !PendingKey(w, [], k) {}
  }

  lemma {:induction false} CalledAfterPop(w: World, requirements: seq<Requirement>, order: seq<Key>, order': seq<Key>,
    pending: seq<Requirement>, pending': seq<Requirement>)
    requires PendingCalled(w, requirements, order, pending) && order <= order'
    requires pending != [] && pending[..|pending| - 1] <= pending'
    requires
      var key := KeyOf(w, pending[|pending| - 1]);
      forall r :: r in pending'[|pending| - 1..] ==> key in order' && Edge(w, key, KeyOf(w, r))
    ensures PendingCalled(w, requirements, order', pending')
  {
    var n, key := |pending| - 1, KeyOf(w, pending[|pending| - 1]);
    forall i | 0 <= i < |pending'|
      ensures Called(w, requirements, order', KeyOf(w, pending'[i]))
    {
      if i < n {
        assert pending'[i] == pending[..n][i] == pending[i];
        assert Called(w, requirements, order, KeyOf(w, pending[i]));
        assert forall a :: a in order ==> a in order';
      } else {
        assert pending'[i] == pending'[n..][i - n];
      }
    }
  }

  lemma {:induction false} Shrinks(universe: set<Key>, seen: set<Key>, key: Key)
    requires key in universe && key !in seen
    ensures |universe - (seen + {key})| < |universe - seen|
  {
    assert universe - (seen + {key}) == (universe - seen) - {key};
  }

  lemma {:induction false} InitialWalk(w: World, requirements: seq<Requirement>, roots: set<string>, pending: seq<Requirement>)
    requires forall r :: r in pending <==> r in requirements && Applies(w, r, {})
    ensures WalkInv(w, requirements, roots, pending, {}, map[], [])
  {
    forall i | 0 <= i < |pending|
      ensures KeyOf(w, pending[i]) in Universe(w, requirements) && Reachable(w, requirements, KeyOf(w, pending[i]))
    {
      assert pending[i] in pending;
      RootIsReachable(w, requirements, KeyOf(w, pending[i]));
    }
    forall k | IsRoot(w, requirements, k) ensures PendingKey(w, pending, k) {
      var r :| r in requirements && Applies(w, r, {}) && k == KeyOf(w, r);
      assert r in pending;
    }
  }

  /** A key pending before the pop is pending after it, or is the popped one. */
  lemma {:induction false} PendingAfterPop(w: World, pending: seq<Requirement>, pending': seq<Requirement>, k: Key)
    requires pending != [] && pending[..|pending| - 1] <= pending'
    requires PendingKey(w, pending, k)
    ensures k == KeyOf(w, pending[|pending| - 1]) || PendingKey(w, pending', k)
  {
    var i :| 0 <= i < |pending| && KeyOf(w, pending[i]) == k;
    if i < |pending| - 1 {
      assert pending'[i] == pending[..|pending| - 1][i] == pending[i];
    }
  }

  /** Coverage survives a pop that marks `key` seen and leaves its successors pending. */
  lemma {:induction false} CoveredAfterPop(w: World, requirements: seq<Requirement>,
    pending: seq<Requirement>, pending': seq<Requirement>, seen: set<Key>)
    requires pending != [] && pending[..|pending| - 1] <= pending'
    requires Covered(w, requirements, pending, seen)
    requires
      var key := KeyOf(w, pending[|pending| - 1]);
      key in seen || forall b :: Edge(w, key, b) ==> PendingKey(w, pending', b)
    ensures Covered(w, requirements, pending', seen + {KeyOf(w, pending[|pending| - 1])})
  {
    var key := KeyOf(w, pending[|pending| - 1]);
    forall k | PendingKey(w, pending, k) ensures k in seen + {key} || PendingKey(w, pending', k) {
      PendingAfterPop(w, pending, pending', k);
    }
  }

  lemma {:induction false} PopSeen(w: World, requirements: seq<Requirement>, roots: set<string>,
    pending: seq<Requirement>, seen: set<Key>, pinned: map<string, string>, missing: seq<string>)
    requires WalkInv(w, requirements, roots, pending, seen, pinned, missing)
    requires pending != [] && KeyOf(w, pending[|pending| - 1]) in seen
    ensures WalkInv(w, requirements, roots, pending[..|pending| - 1], seen, pinned, missing)
  {
    CoveredAfterPop(w, requirements, pending, pending[..|pending| - 1], seen);
    assert seen + {KeyOf(w, pending[|pending| - 1])} == seen;
  }

  lemma {:induction false} PopAbsent(w: World, requirements: seq<Requirement>, roots: set<string>,
    pending: seq<Requirement>, seen: set<Key>, pinned: map<string, string>,
    missing: seq<string>, missing': seq<string>)
    requires WalkInv(w, requirements, roots, pending, seen, pinned, missing)
    requires pending != []
    requires
      var key := KeyOf(w, pending[|pending| - 1]);
      key !in seen && key.name !in w.installed &&
      missing' == if key.name in roots then missing + [key.name] else missing
    ensures WalkInv(w, requirements, roots, pending[..|pending| - 1],
                    seen + {KeyOf(w, pending[|pending| - 1])}, pinned, missing')
  {
    var key := KeyOf(w, pending[|pending| - 1]);
    CoveredAfterPop(w, requirements, pending, pending[..|pending| - 1], seen);
    assert PinnedFrom(w, seen + {key}, pinned);
    MissingAfterAbsent(w, roots, seen, key, missing, missing');
  }

  lemma {:induction false} MissingAfterAbsent(w: World, roots: set<string>, seen: set<Key>, key: Key,
    missing: seq<string>, missing': seq<string>)
    requires MissingFrom(w, roots, seen, missing) && key.name !in w.installed
    requires missing' == if key.name in roots then missing + [key.name] else missing
    ensures MissingFrom(w, roots, seen + {key}, missing')
  {
    assert key in seen + {key};
    forall n ensures SeenName(seen + {key}, n) <==> SeenName(seen, n) || n == key.name {
      if SeenName(seen, n) {
        var k :| k in seen && k.name == n;
        assert k in seen + {key};
      }
    }
  }

  lemma {:induction false} PinnedAfterInstalled(w: World, seen: set<Key>, key: Key, pinned: map<string, string>)
    requires PinnedFrom(w, seen, pinned) && key.name in w.installed
    ensures
      var d := w.installed[key.name];
      PinnedFrom(w, seen + {key}, pinned[w.canon(d.name) := d.version])
  {
    var d := w.installed[key.name];
    var pinned' := pinned[w.canon(d.name) := d.version];
    forall n | n in pinned' ensures exists k :: k in seen + {key} && Witnesses(w, k, n, pinned'[n]) {
      if n == w.canon(d.name) {
        assert key in seen + {key} && Witnesses(w, key, n, pinned'[n]);
      } else {
        var k :| k in seen && Witnesses(w, k, n, pinned[n]);
        assert k in seen + {key};
      }
    }
  }

  lemma {:induction false} EdgesArePending(w: World, key: Key, pending': seq<Requirement>, n: nat)
    requires key.name in w.installed && n <= |pending'|
    requires forall r :: r in pending'[n..] <==> r in w.installed[key.name].requires_ && Applies(w, r, key.extras)
    ensures forall b :: Edge(w, key, b) ==> PendingKey(w, pending', b)
  {
    forall b | Edge(w, key, b) ensures PendingKey(w, pending', b) {
      var r :| r in w.installed[key.name].requires_ && Applies(w, r, key.extras) && b == KeyOf(w, r);
      assert r in pending'[n..];
      var j :| 0 <= j < |pending'[n..]| && pending'[n..][j] == r;
      assert pending'[n + j] == r;
    }
  }

  lemma {:induction false} PopInstalled(w: World, requirements: seq<Requirement>, roots: set<string>,
    pending: seq<Requirement>, pending': seq<Requirement>, seen: set<Key>,
    pinned: map<string, string>, missing: seq<string>)
    requires WalkInv(w, requirements, roots, pending, seen, pinned, missing)
    requires pending != []
    requires
      var key := KeyOf(w, pending[|pending| - 1]);
      key !in seen && key.name in w.installed
    requires pending[..|pending| - 1] <= pending'
    requires
      var key := KeyOf(w, pending[|pending| - 1]);
      forall r :: r in pending'[|pending| - 1..] <==>
        r in w.installed[key.name].requires_ && Applies(w, r, key.extras)
    ensures
      var key := KeyOf(w, pending[|pending| - 1]);
      var d := w.installed[key.name];
      WalkInv(w, requirements, roots, pending', seen + {key}, pinned[w.canon(d.name) := d.version], missing)
  {
    var key := KeyOf(w, pending[|pending| - 1]);
    EdgesArePending(w, key, pending', |pending| - 1);
    CoveredAfterPop(w, requirements, pending, pending', seen);
    SoundAfterInstalled(w, requirements, pending, pending', seen);
    PinnedAfterInstalled(w, seen, key, pinned);
    assert MissingFrom(w, roots, seen + {key}, missing);
  }

  lemma {:induction false} SoundAfterInstalled(w: World, requirements: seq<Requirement>,
    pending: seq<Requirement>, pending': seq<Requirement>, seen: set<Key>)
    requires Sound(w, requirements, pending, seen)
    requires pending != [] && pending[..|pending| - 1] <= pending'
    requires KeyOf(w, pending[|pending| - 1]).name in w.installed
    requires
      var key := KeyOf(w, pending[|pending| - 1]);
      forall r :: r in pending'[|pending| - 1..] ==>
        r in w.installed[key.name].requires_ && Applies(w, r, key.extras)
    ensures Sound(w, requirements, pending', seen + {KeyOf(w, pending[|pending| - 1])})
  {
    var rest := pending[..|pending| - 1];
    var key := KeyOf(w, pending[|pending| - 1]);
    forall i | 0 <= i < |pending'|
      ensures KeyOf(w, pending'[i]) in Universe(w, requirements) && Reachable(w, requirements, KeyOf(w, pending'[i]))
    {
      if i < |rest| {
        assert pending'[i] == rest[i] == pending[i];
      } else {
        assert pending'[i] == pending'[|rest|..][i - |rest|];
        PushedIsSound(w, requirements, key, pending'[i]);
      }
    }
  }

  lemma {:induction false} PushedIsSound(w: World, requirements: seq<Requirement>, key: Key, r: Requirement)
    requires Reachable(w, requirements, key) && key.name in w.installed
    requires r in w.installed[key.name].requires_ && Applies(w, r, key.extras)
    ensures KeyOf(w, r) in Universe(w, requirements) && Reachable(w, requirements, KeyOf(w, r))
  {
    EdgeExtendsReach(w, requirements, key, KeyOf(w, r));
  }

  lemma {:induction false} WalkDone(w: World, requirements: seq<Requirement>, roots: set<string>,
    seen: set<Key>, pinned: map<string, string>, missing: seq<string>)
    requires WalkInv(w, requirements, roots, [], seen, pinned, missing)
    requires forall n :: n in roots <==> exists r :: r in requirements && Applies(w, r, {}) && n == w.canon(r.name)
    ensures PinsExactly(w, requirements, pinned)
    ensures forall n :: n in missing <==> IsMissingRoot(w, requirements, n)
  {
    forall k | Reachable(w, requirements, k) ensures k in seen {
      ClosedSetHoldsReachable(w, requirements, seen, k);
    }
    forall n | n in pinned ensures exists k :: Pins(w, requirements, k, n, pinned[n]) {
      var k :| k in seen && Witnesses(w, k, n, pinned[n]);
      assert Pins(w, requirements, k, n, pinned[n]);
    }
    forall n | IsMissingRoot(w, requirements, n) ensures n in missing {
      var r :| r in requirements && Applies(w, r, {}) && n == w.canon(r.name);
      assert IsRoot(w, requirements, KeyOf(w, r));
      assert KeyOf(w, r) in seen;
    }
  }

  // ---------------------------------------------------------------- independence of visiting order

  ghost predicate SameMembers<T(!new)>(a: seq<T>, b: seq<T>) {
    forall x :: x in a <==> x in b
  }

  /** Two environments that list the same requirements in different orders. */
  ghost predicate SameUpToOrder(w: World, w': World) {
    w.canon == w'.canon && w.evaluate == w'.evaluate && w.installed.Keys == w'.installed.Keys &&
    forall n :: n in w.installed ==>
      w.installed[n].name == w'.installed[n].name && w.installed[n].version == w'.installed[n].version &&
      SameMembers(w.installed[n].requires_, w'.installed[n].requires_)
  }

  /** No two reached distributions claim the same canonical name at different versions. */
  ghost predicate NoConflict(w: World, requirements: seq<Requirement>) {
    forall k, k', n, v, v' :: Pins(w, requirements, k, n, v) && Pins(w, requirements, k', n, v') ==> v == v'
  }

  ghost predicate PinsAreDetermined(w: World, requirements: seq<Requirement>) {
    forall p, p' :: PinsExactly(w, requirements, p) && PinsExactly(w, requirements, p') ==> p == p'
  }

  lemma {:induction false} ReachableInUniverse(w: World, requirements: seq<Requirement>, k: Key)
    requires Reachable(w, requirements, k)
    ensures k in Universe(w, requirements)
  {
    ClosedSetHoldsReachable(w, requirements, Universe(w, requirements), k);
  }

  /** Some correct set of pins always exists. */
  lemma {:induction false} PinsExist(w: World, requirements: seq<Requirement>) returns (pinned: map<string, string>)
    ensures PinsExactly(w, requirements, pinned)
  {
    var reached := set k | k in Universe(w, requirements) && Reachable(w, requirements, k) && k.name in w.installed;
    var names := set k | k in reached :: w.canon(w.installed[k.name].name);
    pinned := map n | n in names ::
      (var k :| k in reached && w.canon(w.installed[k.name].name) == n; w.installed[k.name].version);
    forall n, v, k | Pins(w, requirements, k, n, v) ensures n in pinned {
      ReachableInUniverse(w, requirements, k);
      assert k in reached;
    }
    forall n | n in pinned ensures exists k :: Pins(w, requirements, k, n, pinned[n]) {
      var k :| k in reached && w.canon(w.installed[k.name].name) == n && w.installed[k.name].version == pinned[n];
      assert Pins(w, requirements, k, n, pinned[n]);
    }
  }

  lemma {:induction false} ConflictUndetermines(w: World, requirements: seq<Requirement>, k: Key, k': Key, n: string, v: string, v': string)
    requires Pins(w, requirements, k, n, v) && Pins(w, requirements, k', n, v') && v != v'
    ensures !PinsAreDetermined(w, requirements)
  {
    var p := PinsExist(w, requirements);
    RePin(w, requirements, p, k, n, v);
    RePin(w, requirements, p, k', n, v');
    assert p[n := v][n] != p[n := v'][n];
  }

  /** Which keys are reachable determines the pins, whoever collects them, exactly when no name is claimed
      twice at different versions. */
  lemma {:induction false} PinsDeterminedIffNoConflict(w: World, requirements: seq<Requirement>)
    ensures PinsAreDetermined(w, requirements) <==> NoConflict(w, requirements)
  {
    if NoConflict(w, requirements) {
      forall p, p' | PinsExactly(w, requirements, p) && PinsExactly(w, requirements, p') ensures p == p' {
        NoConflictDetermines(w, requirements, p, p');
      }
    } else {
      var k, k', n, v, v' :| Pins(w, requirements, k, n, v) && Pins(w, requirements, k', n, v') && v != v';
      ConflictUndetermines(w, requirements, k, k', n, v, v');
    }
  }

  lemma {:induction false} NoConflictSameEntry(w: World, requirements: seq<Requirement>, p: map<string, string>, p': map<string, string>, n: string)
    requires NoConflict(w, requirements)
    requires PinsExactly(w, requirements, p) && PinsExactly(w, requirements, p') && n in p
    ensures n in p' && p[n] == p'[n]
  {
    var k :| Pins(w, requirements, k, n, p[n]);
    var k' :| Pins(w, requirements, k', n, p'[n]);
  }

  lemma {:induction false} NoConflictDetermines(w: World, requirements: seq<Requirement>, p: map<string, string>, p': map<string, string>)
    requires NoConflict(w, requirements)
    requires PinsExactly(w, requirements, p) && PinsExactly(w, requirements, p')
    ensures p == p'
  {
    forall n ensures (n in p ==> n in p' && p[n] == p'[n]) && (n in p' ==> n in p) {
      if n in p { NoConflictSameEntry(w, requirements, p, p', n); }
      if n in p' { NoConflictSameEntry(w, requirements, p', p, n); }
    }
  }

  lemma {:induction false} RePin(w: World, requirements: seq<Requirement>, p: map<string, string>, k: Key, n: string, v: string)
    requires PinsExactly(w, requirements, p) && Pins(w, requirements, k, n, v)
    ensures PinsExactly(w, requirements, p[n := v])
  {
    var q := p[n := v];
    forall m | m in q ensures exists j :: Pins(w, requirements, j, m, q[m]) {
      if m == n {
        assert Pins(w, requirements, k, m, q[m]);
      } else {
        var j :| Pins(w, requirements, j, m, p[m]);
        assert Pins(w, requirements, j, m, q[m]);
      }
    }
  }

  /** An environment whose distributions carry the name they are found under has no conflicts,
      and then the pinned names are the reached installed names themselves. */
  lemma {:induction false} WellNamedPins(w: World, requirements: seq<Requirement>, pinned: map<string, string>)
    requires forall n :: n in w.installed ==> w.canon(w.installed[n].name) == n
    requires PinsExactly(w, requirements, pinned)
    ensures NoConflict(w, requirements)
    ensures forall n :: n in pinned <==> n in w.installed && exists k :: Reachable(w, requirements, k) && k.name == n
    ensures forall n :: n in pinned ==> pinned[n] == w.installed[n].version
  {
    forall n | n in w.installed && exists k :: Reachable(w, requirements, k) && k.name == n ensures n in pinned {
      var k :| Reachable(w, requirements, k) && k.name == n;
      assert Pins(w, requirements, k, n, w.installed[n].version);
    }
  }

  // ---------------------------------------------------------------- rendering

  const HEADER: seq<string> := [
    "# Generated by deploy/hosted/lock_api_constraints.py from the tested environment.",
    "# Do not edit by hand; regenerate after changing dependencies."
  ]

  /** The release a version names: everything before its local label. */
  function PublicVersion(v: string): (r: string)
    ensures '+' !in r && r <= v
    ensures r != v ==> v[|r|] == '+'
  {
    if v == [] || v[0] == '+' then [] else [v[0]] + PublicVersion(v[1..])
  }

  function PinLine(name: string, version: string): string {
    name + "==" + PublicVersion(version)
  }

  function PublicPins(pinned: map<string, string>): map<string, string> {
    map n | n in pinned :: PublicVersion(pinned[n])
  }

  /** `lines` is the header and one pin per name, in name order. */
  ghost predicate Renders(pinned: map<string, string>, names: seq<string>, lines: seq<string>) {
    Ascending(names) && (forall n :: n in names <==> n in pinned) &&
    |lines| == |HEADER| + |names| && lines[..|HEADER|] == HEADER &&
    forall i :: 0 <= i < |names| ==> lines[|HEADER| + i] == PinLine(names[i], pinned[names[i]])
  }

  method SortedNames(pinned: map<string, string>) returns (names: seq<string>)
    ensures Ascending(names) && forall n :: n in names <==> n in pinned
  {
    names := [];
    var rest := pinned.Keys;
    while rest != {}
      invariant Ascending(names)
      invariant rest <= pinned.Keys
      invariant forall n :: n in names <==> n in pinned && n !in rest
      decreases rest
    {
      var n :| n in rest;
      InsertAscending(n, names);
      names := Insert(n, names);
      rest := rest - {n};
    }
  }

  method Render(pinned: map<string, string>) returns (lines: seq<string>)
    ensures exists names :: Renders(pinned, names, lines)
  {
    lines := HEADER;
    var names := SortedNames(pinned);
    for i := 0 to |names|
      invariant |lines| == |HEADER| + i && lines[..|HEADER|] == HEADER
      invariant forall j :: 0 <= j < i ==> lines[|HEADER| + j] == PinLine(names[j], pinned[names[j]])
    {
      assert names[i] in names;
      lines := lines + [PinLine(names[i], pinned[names[i]])];
    }
    assert Renders(pinned, names, lines);
  }

  /** The first '=' of a pin line ends the name. */
  lemma {:induction false} NameEndsAtFirstEquals(n: string, v: string)
    requires '=' !in n
    ensures |PinLine(n, v)| == |n| + 2 + |PublicVersion(v)| && PinLine(n, v)[|n|] == '='
    ensures forall i :: 0 <= i < |n| ==> PinLine(n, v)[i] != '='
  {
    forall i | 0 <= i < |n| ensures PinLine(n, v)[i] != '=' {
      assert n[i] in n;
    }
  }

  lemma {:induction false} PinLineSplits(n: string, v: string, n': string, v': string)
    requires '=' !in n && '=' !in n'
    requires PinLine(n, v) == PinLine(n', v')
    ensures n == n' && PublicVersion(v) == PublicVersion(v')
  {
    NameEndsAtFirstEquals(n, v);
    NameEndsAtFirstEquals(n', v');
    assert |n| == |n'|;
    assert n == PinLine(n, v)[..|n|] == PinLine(n', v')[..|n|] == n';
    assert PublicVersion(v) == PinLine(n, v)[|n| + 2..] == PinLine(n', v')[|n| + 2..] == PublicVersion(v');
  }

  lemma {:induction false} SamePinsSameLines(
    p: map<string, string>, names: seq<string>, lines: seq<string>,
    p': map<string, string>, names': seq<string>, lines': seq<string>)
    requires Renders(p, names, lines) && Renders(p', names', lines') && PublicPins(p) == PublicPins(p')
    ensures lines == lines'
  {
    assert PublicPins(p).Keys == p.Keys && PublicPins(p').Keys == p'.Keys;
    AscendingIsDetermined(names, names');
    forall i | 0 <= i < |lines| ensures lines[i] == lines'[i] {
      if i >= |HEADER| {
        var n := names[i - |HEADER|];
        assert n in names;
        assert PublicPins(p)[n] == PublicPins(p')[n];
      } else {
        assert lines[i] == lines[..|HEADER|][i] && lines'[i] == lines'[..|HEADER|][i];
      }
    }
  }

  /** Two environments render the same constraints exactly when they pin the same releases:
      the file identifies the pins up to the local labels that it drops. */
  lemma {:induction false} RenderIdentifiesReleases(
    p: map<string, string>, names: seq<string>, lines: seq<string>,
    p': map<string, string>, names': seq<string>, lines': seq<string>)
    requires forall n :: n in p || n in p' ==> '=' !in n
    requires Renders(p, names, lines) && Renders(p', names', lines')
    ensures lines == lines' <==> PublicPins(p) == PublicPins(p')
  {
    if PublicPins(p) == PublicPins(p') {
      SamePinsSameLines(p, names, lines, p', names', lines');
    }
    if lines == lines' {
      SameLinesSamePins(p, names, p', names', lines);
      SameLinesSamePins(p', names', p, names, lines);
      assert PublicPins(p).Keys == PublicPins(p').Keys;
    }
  }

  lemma {:induction false} SameLinesSamePins(
    p: map<string, string>, names: seq<string>, p': map<string, string>, names': seq<string>, lines: seq<string>)
    requires forall n :: n in p || n in p' ==> '=' !in n
    requires Renders(p, names, lines) && Renders(p', names', lines)
    ensures forall n :: n in p ==> n in p' && PublicVersion(p[n]) == PublicVersion(p'[n])
  {
    forall n | n in p ensures n in p' && PublicVersion(p[n]) == PublicVersion(p'[n]) {
      assert n in names;
      var i :| 0 <= i < |names| && names[i] == n;
      assert names'[i] in names';
      PinLineSplits(n, p[n], names'[i], p'[names'[i]]);
    }
  }
}
