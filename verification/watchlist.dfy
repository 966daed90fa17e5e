/**
 The watchlist updaters that run inside the state file's lock.  The list is meant to hold at most one
 live (non-archived) item per owner and project.
 */
module Watchlist {
  import opened Wrappers

  datatype Priority = Low | Medium | High

  datatype WatchStatus = Active | Paused | Archived

  datatype WatchlistItem = WatchlistItem(
    id: string,
    userId: string,
    projectId: string,
    reason: string,
    topics: seq<string>,
    priority: Priority,
    status: WatchStatus,
    notifyOn: seq<string>,
    nextAction: string,
    signals: seq<string>)

  datatype CreateRequest = CreateRequest(
    projectId: string,
    userId: Option<string>,
    reason: string,
    topics: seq<string>,
    priority: Priority,
    notifyOn: seq<string>)

  datatype PatchRequest = PatchRequest(
    reason: Option<string>,
    topics: Option<seq<string>>,
    priority: Option<Priority>,
    status: Option<WatchStatus>,
    notifyOn: Option<seq<string>>,
    nextAction: Option<string>)

  const DEFAULT_NOTIFY: seq<string> := ["release", "docs_change", "hot_score"]
  const REVIEW_EVIDENCE := "Review latest Project Radar evidence."

  predicate Live(item: WatchlistItem) {
    item.status != Archived
  }

  predicate SameWatch(a: WatchlistItem, b: WatchlistItem) {
    a.userId == b.userId && a.projectId == b.projectId
  }

  /** At most one live item per owner and project. */
  ghost predicate OneWatch(items: seq<WatchlistItem>) {
    forall i, j :: 0 <= i < j < |items| && SameWatch(items[i], items[j]) ==> !(Live(items[i]) && Live(items[j]))
  }

  // ---------------------------------------------------------------- add

  function Owner(request: CreateRequest): string {
    match request.userId
    case Some(u) => if u == "" then "anonymous" else u
    case None => "anonymous"
  }

  predicate IsExisting(item: WatchlistItem, request: CreateRequest) {
    item.projectId == request.projectId && item.userId == Owner(request) && Live(item)
  }

  function Rewatched(item: WatchlistItem, request: CreateRequest, signals: seq<string>): WatchlistItem {
    item.(reason := request.reason,
          topics := request.topics,
          priority := request.priority,
          notifyOn := if request.notifyOn == [] then item.notifyOn else request.notifyOn,
          nextAction := REVIEW_EVIDENCE,
          signals := signals)
  }

  function NewItem(newId: string, request: CreateRequest, signals: seq<string>): WatchlistItem {
    WatchlistItem(newId, Owner(request), request.projectId, request.reason, request.topics, request.priority,
                  Active, if request.notifyOn == [] then DEFAULT_NOTIFY else request.notifyOn,
                  REVIEW_EVIDENCE, signals)
  }

  /** Index of the first live item of the request's owner and project, or the length. */
  function FindExisting(items: seq<WatchlistItem>, request: CreateRequest): (k: nat)
    ensures k <= |items|
    ensures k < |items| ==> IsExisting(items[k], request)
    ensures forall i :: 0 <= i < k ==> !IsExisting(items[i], request)
  {
    if items == [] then 0
    else if IsExisting(items[0], request) then 0
    else
      var k := FindExisting(items[1..], request);
      assert forall i :: 0 < i < |items| ==> items[i] == items[1..][i - 1];
      k + 1
  }

  function AddTo(items: seq<WatchlistItem>, newId: string, request: CreateRequest, signals: seq<string>)
    : seq<WatchlistItem>
  {
    var k := FindExisting(items, request);
    if k == |items| then items + [NewItem(newId, request, signals)]
    else seq(|items|, i requires 0 <= i < |items| =>
           if items[i].id == items[k].id then Rewatched(items[i], request, signals) else items[i])
  }

  /** `add` as written: a search for an existing live item, then either a rebuilding loop over the
      list or an append.  The project must exist in the dataset. */
  method Add(projects: set<string>, items: seq<WatchlistItem>, newId: string, request: CreateRequest, signals: seq<string>)
    returns (r: Result<(seq<WatchlistItem>, WatchlistItem), string>)
    ensures r.Err? <==> request.projectId !in projects
    ensures r.Ok? ==> r.value.0 == AddTo(items, newId, request, signals) && r.value.1 in r.value.0
    ensures r.Ok? ==>
      var k := FindExisting(items, request);
      if k == |items| then r.value.1 == NewItem(newId, request, signals) else r.value.1.id == items[k].id
  {
    if request.projectId !in projects {
      return Err("project not found");
    }
    var k := FindExisting(items, request);
    if k == |items| {
      var saved := NewItem(newId, request, signals);
      return Ok((items + [saved], saved));
    }
    var updated: seq<WatchlistItem> := [];
    var saved := items[k];
    for i := 0 to |items|
      invariant |updated| == i
      invariant updated == AddTo(items, newId, request, signals)[..i]
      invariant saved.id == items[k].id
      invariant i > k ==> saved in updated
    {
      if items[i].id != items[k].id {
        updated := updated + [items[i]];
      } else {
        saved := Rewatched(items[i], request, signals);
        updated := updated + [saved];
      }
    }
    r := Ok((updated, saved));
  }

  lemma {:induction false} AddKeepsOneWatch(items: seq<WatchlistItem>, newId: string, request: CreateRequest, signals: seq<string>)
    requires OneWatch(items)
    ensures OneWatch(AddTo(items, newId, request, signals))
  {
    var after := AddTo(items, newId, request, signals);
    forall i, j | 0 <= i < j < |after| && SameWatch(after[i], after[j])
      ensures !(Live(after[i]) && Live(after[j]))
    {
      if j < |items| {
        assert SameWatch(items[i], items[j]);
      } else {
        assert !IsExisting(items[i], request);
      }
    }
  }

  /** After `add` the owner has a live item for the project, whatever was there before. */
  lemma {:induction false} AddEstablishesWatch(items: seq<WatchlistItem>, newId: string, request: CreateRequest, signals: seq<string>)
    ensures
      var after := AddTo(items, newId, request, signals);
      exists k :: 0 <= k < |after| && IsExisting(after[k], request) && after[k].reason == request.reason
  {
    var after := AddTo(items, newId, request, signals);
    var k := FindExisting(items, request);
    assert IsExisting(after[k], request) && after[k].reason == request.reason;
  }

  // ---------------------------------------------------------------- patch, refresh, delete

  predicate Targets(item: WatchlistItem, itemId: string, userId: Option<string>) {
    item.id == itemId && (userId.None? || item.userId == userId.value)
  }

  function Or<T>(o: Option<T>, d: T): T {
    match o
    case Some(v) => v
    case None => d
  }

  function Patched(item: WatchlistItem, request: PatchRequest): WatchlistItem {
    item.(reason := Or(request.reason, item.reason),
          topics := Or(request.topics, item.topics),
          priority := Or(request.priority, item.priority),
          status := Or(request.status, item.status),
          notifyOn := Or(request.notifyOn, item.notifyOn),
          nextAction := Or(request.nextAction, item.nextAction))
  }

  function PatchIn(items: seq<WatchlistItem>, itemId: string, userId: Option<string>, request: PatchRequest)
    : seq<WatchlistItem>
  {
    seq(|items|, i requires 0 <= i < |items| =>
      if Targets(items[i], itemId, userId) then Patched(items[i], request) else items[i])
  }

  method Patch(items: seq<WatchlistItem>, itemId: string, userId: Option<string>, request: PatchRequest)
    returns (updatedItems: seq<WatchlistItem>, updated: Option<WatchlistItem>)
    ensures updatedItems == PatchIn(items, itemId, userId, request)
    ensures updated.None? <==> forall i :: 0 <= i < |items| ==> !Targets(items[i], itemId, userId)
    ensures updated.Some? ==> updated.value in updatedItems && updated.value.id == itemId
  {
    updatedItems, updated := [], None;
    for i := 0 to |items|
      invariant updatedItems == PatchIn(items, itemId, userId, request)[..i]
      invariant updated.None? <==> forall j :: 0 <= j < i ==> !Targets(items[j], itemId, userId)
      invariant updated.Some? ==> updated.value in updatedItems && updated.value.id == itemId
    {
      if Targets(items[i], itemId, userId) {
        updated := Some(Patched(items[i], request));
        updatedItems := updatedItems + [updated.value];
      } else {
        updatedItems := updatedItems + [items[i]];
      }
    }
  }

  /** The patch brings an archived item back to life next to another one of the same watch. */
  ghost predicate RevivalClash(items: seq<WatchlistItem>, itemId: string, userId: Option<string>, request: PatchRequest) {
    request.status.Some? && request.status.value != Archived &&
    exists i, j :: 0 <= i < |items| && 0 <= j < |items| && i != j &&
      Targets(items[i], itemId, userId) && !Live(items[i]) && SameWatch(items[i], items[j]) &&
      (Live(items[j]) || Targets(items[j], itemId, userId))
  }

  /** `patch` does not look at the other items, so it can break the one-watch rule: exactly when it
      revives an archived item whose owner already watches the project. */
  lemma {:induction false} PatchKeepsOneWatchIff(items: seq<WatchlistItem>, itemId: string, userId: Option<string>, request: PatchRequest)
    requires OneWatch(items)
    ensures OneWatch(PatchIn(items, itemId, userId, request)) <==> !RevivalClash(items, itemId, userId, request)
  {
    var after := PatchIn(items, itemId, userId, request);
    forall i, j | 0 <= i < |items| && 0 <= j < |items|
      ensures SameWatch(after[i], after[j]) <==> SameWatch(items[i], items[j]) {}
    if RevivalClash(items, itemId, userId, request) {
      var i, j :| 0 <= i < |items| && 0 <= j < |items| && i != j &&
        Targets(items[i], itemId, userId) && !Live(items[i]) && SameWatch(items[i], items[j]) &&
        (Live(items[j]) || Targets(items[j], itemId, userId));
      var lo, hi := if i < j then i else j, if i < j then j else i;
      assert SameWatch(after[lo], after[hi]) && Live(after[lo]) && Live(after[hi]);
    } else {
      forall i, j | 0 <= i < j < |after| && SameWatch(after[i], after[j])
        ensures !(Live(after[i]) && Live(after[j]))
      {
        assert SameWatch(items[i], items[j]) && SameWatch(items[j], items[i]);
      }
    }
  }

  /** The clash is reachable from an empty list through the public operations alone: watch a project,
      archive the item, watch the project again, then set the archived item active. */
  lemma {:induction false} ReviveBreaksOneWatch(request: CreateRequest, signals: seq<string>, first: string, second: string)
    requires first != second
    ensures
      var archive := PatchRequest(None, None, None, Some(Archived), None, None);
      var revive := PatchRequest(None, None, None, Some(Active), None, None);
      var watched := AddTo([], first, request, signals);
      var archived := PatchIn(watched, first, None, archive);
      var watchedAgain := AddTo(archived, second, request, signals);
      OneWatch(watchedAgain) && !OneWatch(PatchIn(watchedAgain, first, None, revive))
  {
    var archive := PatchRequest(None, None, None, Some(Archived), None, None);
    var revive := PatchRequest(None, None, None, Some(Active), None, None);
    var item, item' := NewItem(first, request, signals), NewItem(second, request, signals);
    var watched := AddTo([], first, request, signals);
    assert watched == [item];
    var archived := PatchIn(watched, first, None, archive);
    assert archived == [item.(status := Archived)];
    AddKeepsOneWatch(archived, second, request, signals);
    var both := AddTo(archived, second, request, signals);
    assert !IsExisting(archived[0], request);
    assert both == [item.(status := Archived), item'];
    PatchKeepsOneWatchIff(both, first, None, revive);
    assert Targets(both[0], first, None) && SameWatch(both[0], both[1]);
    assert RevivalClash(both, first, None, revive);
  }

  predicate Refreshes(projects: set<string>, item: WatchlistItem, itemId: string, userId: Option<string>) {
    Targets(item, itemId, userId) && item.projectId in projects
  }

  function RefreshIn(projects: set<string>, items: seq<WatchlistItem>, itemId: string, userId: Option<string>,
    signals: string -> seq<string>, action: seq<string> -> string): seq<WatchlistItem>
  {
    seq(|items|, i requires 0 <= i < |items| =>
      if Refreshes(projects, items[i], itemId, userId)
      then items[i].(signals := signals(items[i].projectId), nextAction := action(signals(items[i].projectId)))
      else items[i])
  }

  method Refresh(projects: set<string>, items: seq<WatchlistItem>, itemId: string, userId: Option<string>,
    signals: string -> seq<string>, action: seq<string> -> string)
    returns (updatedItems: seq<WatchlistItem>, updated: Option<WatchlistItem>)
    ensures updatedItems == RefreshIn(projects, items, itemId, userId, signals, action)
    ensures updated.None? <==> forall i :: 0 <= i < |items| ==> !Refreshes(projects, items[i], itemId, userId)
  {
    updatedItems, updated := [], None;
    for i := 0 to |items|
      invariant updatedItems == RefreshIn(projects, items, itemId, userId, signals, action)[..i]
      invariant updated.None? <==> forall j :: 0 <= j < i ==> !Refreshes(projects, items[j], itemId, userId)
    {
      if Refreshes(projects, items[i], itemId, userId) {
        var found := signals(items[i].projectId);
        updated := Some(items[i].(signals := found, nextAction := action(found)));
        updatedItems := updatedItems + [updated.value];
      } else {
        updatedItems := updatedItems + [items[i]];
      }
    }
  }

  lemma {:induction false} RefreshKeepsOneWatch(projects: set<string>, items: seq<WatchlistItem>, itemId: string,
    userId: Option<string>, signals: string -> seq<string>, action: seq<string> -> string)
    requires OneWatch(items)
    ensures OneWatch(RefreshIn(projects, items, itemId, userId, signals, action))
  {
    var after := RefreshIn(projects, items, itemId, userId, signals, action);
    forall i, j | 0 <= i < j < |after| && SameWatch(after[i], after[j]) ensures !(Live(after[i]) && Live(after[j])) {
      assert SameWatch(items[i], items[j]);
    }
  }

  function DeleteFrom(items: seq<WatchlistItem>, itemId: string, userId: Option<string>): (r: seq<WatchlistItem>)
    ensures |r| <= |items|
  {
    if items == [] then []
    else (if Targets(items[0], itemId, userId) then [] else [items[0]]) + DeleteFrom(items[1..], itemId, userId)
  }

  lemma {:induction false} ConsOneWatch(x: WatchlistItem, rest: seq<WatchlistItem>)
    requires OneWatch(rest) && forall y :: y in rest && SameWatch(x, y) ==> !(Live(x) && Live(y))
    ensures OneWatch([x] + rest)
  {
    var all := [x] + rest;
    forall i, j | 0 <= i < j < |all| && SameWatch(all[i], all[j])
      ensures !(Live(all[i]) && Live(all[j]))
    {
      assert all[j] == rest[j - 1];
      if i > 0 { assert all[i] == rest[i - 1]; }
    }
  }

  lemma {:induction false} DeleteMembers(items: seq<WatchlistItem>, itemId: string, userId: Option<string>)
    ensures forall x :: x in DeleteFrom(items, itemId, userId) <==> x in items && !Targets(x, itemId, userId)
  {
    if items != [] {
      DeleteMembers(items[1..], itemId, userId);
      assert items == [items[0]] + items[1..];
    }
  }

  lemma {:induction false} TailOneWatch(items: seq<WatchlistItem>)
    requires OneWatch(items) && items != []
    ensures OneWatch(items[1..])
    ensures forall y :: y in items[1..] && SameWatch(items[0], y) ==> !(Live(items[0]) && Live(y))
  {
    forall i, j | 0 <= i < j < |items| - 1 && SameWatch(items[1..][i], items[1..][j])
      ensures !(Live(items[1..][i]) && Live(items[1..][j]))
    {
      assert SameWatch(items[i + 1], items[j + 1]);
    }
  }

  /** What remains are the untargeted items: a subsequence, so no new pair can clash. */
  lemma {:induction false} DeleteKeepsOneWatch(items: seq<WatchlistItem>, itemId: string, userId: Option<string>)
    requires OneWatch(items)
    ensures OneWatch(DeleteFrom(items, itemId, userId))
    ensures forall x :: x in DeleteFrom(items, itemId, userId) <==> x in items && !Targets(x, itemId, userId)
  {
    DeleteMembers(items, itemId, userId);
    if items != [] {
      var rest := DeleteFrom(items[1..], itemId, userId);
      TailOneWatch(items);
      DeleteKeepsOneWatch(items[1..], itemId, userId);
      ConsOneWatch(items[0], rest);
      assert [] + rest == rest;
    }
  }
}
