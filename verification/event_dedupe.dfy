/**
 Marking duplicate events.  A greedy pass keeps each scanned event that no earlier kept event has
 claimed, and marks everything the repository finds similar to it.  `similarTo` is the repository's
 answer for an event id, after the pass has dropped the event itself.
 */
module EventDedupe {
  import opened Wrappers

  type Similarity = string -> seq<string>

  datatype Change = Change(eventId: string, duplicateOf: string)

  /** The pass so far: kept ids in order, ids seen as duplicates, and the reported changes. */
  datatype Pass = Pass(kept: seq<string>, seen: set<string>, changes: seq<Change>)

  const EMPTY := Pass([], {}, [])

  function Others(ids: seq<string>, self: string): (r: seq<string>)
    ensures forall x :: x in r <==> x in ids && x != self
  {
    if ids == [] then []
    else (if ids[0] != self then [ids[0]] else []) + Others(ids[1..], self)
  }

  function Marks(ids: seq<string>, keeper: string): (r: seq<Change>)
    ensures |r| == |ids|
    ensures forall i :: 0 <= i < |ids| ==> r[i] == Change(ids[i], keeper)
  {
    seq(|ids|, i requires 0 <= i < |ids| => Change(ids[i], keeper))
  }

  function Step(similarTo: Similarity, pass: Pass, id: string): Pass {
    if id in pass.seen then pass
    else
      var similar := Others(similarTo(id), id);
      Pass(pass.kept + [id], pass.seen + (set x | x in similar), pass.changes + Marks(similar, id))
  }

  function Scan(similarTo: Similarity, events: seq<string>): Pass {
    if events == [] then EMPTY
    else Step(similarTo, Scan(similarTo, events[..|events| - 1]), events[|events| - 1])
  }

  /** `b` is a duplicate candidate of `a`. */
  predicate Similar(similarTo: Similarity, a: string, b: string) {
    a != b && b in similarTo(a)
  }

  ghost predicate Symmetric(similarTo: Similarity) {
    forall a, b :: Similar(similarTo, a, b) ==> Similar(similarTo, b, a)
  }

  ghost predicate Marked(pass: Pass, id: string) {
    exists c :: c in pass.changes && c.eventId == id
  }

  // ---------------------------------------------------------------- what any pass does

  /** The seen ids are exactly the marked ones, and every mark names a kept event it is similar to. */
  lemma {:induction false} MarksNameKeepers(similarTo: Similarity, events: seq<string>)
    ensures
      var pass := Scan(similarTo, events);
      (forall c :: c in pass.changes <==> c.duplicateOf in pass.kept && Similar(similarTo, c.duplicateOf, c.eventId)) &&
      (forall id :: id in pass.seen <==> exists k :: k in pass.kept && Similar(similarTo, k, id)) &&
      (forall k :: k in pass.kept ==> k in events)
  {
    if events != [] {
      var front, id := events[..|events| - 1], events[|events| - 1];
      MarksNameKeepers(similarTo, front);
      var before, after := Scan(similarTo, front), Scan(similarTo, events);
      if id !in before.seen {
        var similar := Others(similarTo(id), id);
        forall c ensures c in Marks(similar, id) <==> c.duplicateOf == id && Similar(similarTo, id, c.eventId) {
          if c.duplicateOf == id && c.eventId in similar {
            var i :| 0 <= i < |similar| && similar[i] == c.eventId;
            assert Marks(similar, id)[i] == c;
          }
        }
        forall x ensures x in after.seen <==> exists k :: k in after.kept && Similar(similarTo, k, x) {
          if x in before.seen {
            var k :| k in before.kept && Similar(similarTo, k, x);
            assert k in after.kept;
          }
          if x in similar { assert id in after.kept && Similar(similarTo, id, x); }
        }
      }
    }
  }

  /** A scanned event is kept unless it was marked by an event kept before it. */
  lemma {:induction false} SkippedWereMarked(similarTo: Similarity, events: seq<string>, id: string)
    requires id in events && id !in Scan(similarTo, events).kept
    ensures
      var pass := Scan(similarTo, events);
      exists k :: k in pass.kept && Similar(similarTo, k, id) && Change(id, k) in pass.changes
  {
    SeenOrKept(similarTo, events, id);
    MarksNameKeepers(similarTo, events);
    var k :| k in Scan(similarTo, events).kept && Similar(similarTo, k, id);
    assert Change(id, k) in Scan(similarTo, events).changes;
  }

  lemma {:induction false} SeenOrKept(similarTo: Similarity, events: seq<string>, id: string)
    requires id in events
    ensures id in Scan(similarTo, events).kept || id in Scan(similarTo, events).seen
  {
    var front, last := events[..|events| - 1], events[|events| - 1];
    assert events == front + [last];
    if id in front {
      SeenOrKept(similarTo, front, id);
    }
  }

  /** An event kept later is never similar to one kept earlier, as seen from the earlier one. */
  lemma {:induction false} KeptInOrder(similarTo: Similarity, events: seq<string>, i: nat, j: nat)
    requires i < j < |Scan(similarTo, events).kept|
    ensures
      var kept := Scan(similarTo, events).kept;
      !Similar(similarTo, kept[i], kept[j])
  {
    var front, last := events[..|events| - 1], events[|events| - 1];
    var before := Scan(similarTo, front);
    MarksNameKeepers(similarTo, front);
    if last !in before.seen && j == |before.kept| {
      assert before.kept[i] in before.kept;
    } else {
      KeptInOrder(similarTo, front, i, j);
    }
  }

  // ---------------------------------------------------------------- symmetric similarity

  ghost predicate Independent(similarTo: Similarity, ids: seq<string>) {
    forall a, b :: a in ids && b in ids ==> !Similar(similarTo, a, b)
  }

  /** Over a symmetric similarity the kept events are a maximal independent set of the scanned ones:
      no two are similar, however often an event is scanned, and every other scanned event is similar to, and marked as a duplicate of,
      a kept one. */
  lemma {:induction false} KeptIsMaximalIndependent(similarTo: Similarity, events: seq<string>)
    requires Symmetric(similarTo)
    ensures
      var pass := Scan(similarTo, events);
      Independent(similarTo, pass.kept) &&
      (forall id :: id in pass.kept ==> !Marked(pass, id)) &&
      (forall id :: id in events && id !in pass.kept ==>
         exists k :: k in pass.kept && Similar(similarTo, k, id) && Change(id, k) in pass.changes)
  {
    var pass := Scan(similarTo, events);
    MarksNameKeepers(similarTo, events);
    forall a, b | a in pass.kept && b in pass.kept ensures !Similar(similarTo, a, b) {
      var i :| 0 <= i < |pass.kept| && pass.kept[i] == a;
      var j :| 0 <= j < |pass.kept| && pass.kept[j] == b;
      if i < j {
        KeptInOrder(similarTo, events, i, j);
      } else if j < i {
        KeptInOrder(similarTo, events, j, i);
      }
    }
    forall id | id in events && id !in pass.kept
      ensures exists k :: k in pass.kept && Similar(similarTo, k, id) && Change(id, k) in pass.changes
    {
      SkippedWereMarked(similarTo, events, id);
    }
  }

  ghost predicate NeverMarksKept(similarTo: Similarity) {
    forall events ::
      var pass := Scan(similarTo, events);
      forall id :: id in pass.kept ==> !Marked(pass, id)
  }

  /** A repository whose similarity is not symmetric (a substring search, or an answer cut by a
      limit) lets a kept event be marked by a later one; a symmetric one never does. */
  lemma {:induction false} KeptSafeIffSymmetric(similarTo: Similarity)
    ensures NeverMarksKept(similarTo) <==> Symmetric(similarTo)
  {
    if Symmetric(similarTo) {
      forall events
        ensures
          var pass := Scan(similarTo, events);
          forall id :: id in pass.kept ==> !Marked(pass, id)
      {
        KeptIsMaximalIndependent(similarTo, events);
      }
    } else {
      var b, a :| Similar(similarTo, b, a) && !Similar(similarTo, a, b);
      var events := [a, b];
      assert events[..1] == [a] && events[..1][..0] == [];
      assert Scan(similarTo, [a]) == Step(similarTo, EMPTY, a);
      assert b !in Scan(similarTo, [a]).seen;
      var pass := Scan(similarTo, events);
      assert pass.kept == [a, b];
      MarksNameKeepers(similarTo, events);
      assert Change(a, b) in pass.changes;
      assert a in pass.kept && Marked(pass, a);
    }
  }

  // ---------------------------------------------------------------- the service over a repository

  /** What the similarity query reads of an event. */
  datatype Content = Content(eventType: string, topic: Option<string>, title: string, summary: string)

  datatype Event = Event(id: string, content: Content, status: string, duplicateOf: Option<string>)

  /** The condition of the Postgres query: the same type, the same topic, or a title or summary that the
      event's own matches as a pattern.  `ilike(text, s)` stands for `text ILIKE '%s%'`. */
  predicate QueryAlike(ilike: (string, string) -> bool, event: Content, other: Content) {
    || other.eventType == event.eventType
    || (event.topic.Some? && other.topic == event.topic)
    || ilike(other.title, event.title)
    || ilike(other.summary, event.summary)
  }

  /** The events table: answers come in `listing` order, the latest first, cut by the limit, and depend on
      contents only.  Marking an event changes its status and metadata, never its content. */
  class EventRepository {
    const listing: seq<string>
    const alike: (Content, Content) -> bool
    var events: map<string, Event>

    ghost predicate Valid()
      reads this
    {
      forall id :: id in events ==> events[id].id == id
    }

    constructor (listing: seq<string>, alike: (Content, Content) -> bool, events: map<string, Event>)
      requires forall id :: id in events ==> events[id].id == id
      ensures Valid() && this.listing == listing && this.alike == alike && this.events == events
    {
      this.listing, this.alike, this.events := listing, alike, events;
    }

    method FindSimilarEvents(event: Event, limit: nat) returns (found: seq<Event>)
      requires Valid()
      ensures Ids(found) == SimilarIds(listing, alike, Contents(events), event.content, event.id, limit)
      ensures forall i :: 0 <= i < |found| ==> found[i].id in events && found[i] == events[found[i].id]
    {
      found := [];
      for i := 0 to |listing|
        invariant forall j :: 0 <= j < |found| ==> found[j].id in events && found[j] == events[found[j].id]
        invariant Ids(found) == Matching(listing[..i], alike, Contents(events), event.content, event.id)
      {
        assert listing[..i + 1][..i] == listing[..i];
        var id := listing[i];
        if id in events && id != event.id && alike(event.content, events[id].content) {
          ghost var before := found;
          found := found + [events[id]];
          assert Ids(found) == Ids(before) + [id];
        }
      }
      assert listing[..|listing|] == listing;
      if AtLeastOne(limit) < |found| {
        found := found[..AtLeastOne(limit)];
      }
    }

    method UpsertEvent(event: Event)
      requires Valid()
      modifies this`events
      ensures Valid() && events == old(events)[event.id := event]
    {
      events := events[event.id := event];
    }
  }

  /** The query's limit: zero counts as one. */
  function AtLeastOne(limit: nat): nat {
    if limit == 0 then 1 else limit
  }

  function Ids(found: seq<Event>): seq<string> {
    seq(|found|, i requires 0 <= i < |found| => found[i].id)
  }

  function Contents(events: map<string, Event>): map<string, Content> {
    map id | id in events :: events[id].content
  }

  function Matching(listing: seq<string>, alike: (Content, Content) -> bool, contents: map<string, Content>,
    content: Content, self: string): seq<string>
  {
    if listing == [] then []
    else
      var id := listing[|listing| - 1];
      Matching(listing[..|listing| - 1], alike, contents, content, self) +
      if id in contents && id != self && alike(content, contents[id]) then [id] else []
  }

  function SimilarIds(listing: seq<string>, alike: (Content, Content) -> bool, contents: map<string, Content>,
    content: Content, self: string, limit: nat): seq<string>
  {
    var all := Matching(listing, alike, contents, content, self);
    if AtLeastOne(limit) < |all| then all[..AtLeastOne(limit)] else all
  }

  /** The repository's answer as a function of the event id. */
  function SimilarityOf(listing: seq<string>, alike: (Content, Content) -> bool, contents: map<string, Content>, limit: nat)
    : Similarity
  {
    id => if id in contents then SimilarIds(listing, alike, contents, contents[id], id, limit) else []
  }

  /** The last mark a pass puts on an event. */
  function LastMark(changes: seq<Change>, id: string): Option<string> {
    if changes == [] then None
    else if changes[|changes| - 1].eventId == id then Some(changes[|changes| - 1].duplicateOf)
    else LastMark(changes[..|changes| - 1], id)
  }

  function MarkEvent(event: Event, keeper: string): Event {
    event.(status := "duplicate", duplicateOf := Some(keeper))
  }

  /** The table after the marks of a pass have been written. */
  function AfterMarks(events: map<string, Event>, changes: seq<Change>): map<string, Event> {
    map id | id in events ::
      match LastMark(changes, id)
      case None => events[id]
      case Some(keeper) => MarkEvent(events[id], keeper)
  }

  lemma {:induction false} SimilarIdsOthers(listing: seq<string>, alike: (Content, Content) -> bool, contents: map<string, Content>,
    content: Content, self: string, limit: nat)
    ensures Others(SimilarIds(listing, alike, contents, content, self, limit), self)
         == SimilarIds(listing, alike, contents, content, self, limit)
    ensures forall x :: x in SimilarIds(listing, alike, contents, content, self, limit) ==> x in contents
  {
    MatchingExcludesSelf(listing, alike, contents, content, self);
    var all := Matching(listing, alike, contents, content, self);
    assert forall x :: x in SimilarIds(listing, alike, contents, content, self, limit) ==> x in all;
    OthersId(SimilarIds(listing, alike, contents, content, self, limit), self);
  }

  lemma {:induction false} MatchingExcludesSelf(listing: seq<string>, alike: (Content, Content) -> bool,
    contents: map<string, Content>, content: Content, self: string)
    ensures forall x :: x in Matching(listing, alike, contents, content, self) ==> x != self && x in contents
  {
    if listing != [] {
      MatchingExcludesSelf(listing[..|listing| - 1], alike, contents, content, self);
    }
  }

  lemma {:induction false} OthersId(ids: seq<string>, self: string)
    requires self !in ids
    ensures Others(ids, self) == ids
  {
    if ids != [] {
      OthersId(ids[1..], self);
    }
  }

  lemma {:induction false} AfterMarksSnoc(events: map<string, Event>, changes: seq<Change>, c: Change)
    requires c.eventId in events
    ensures AfterMarks(events, changes + [c]) ==
      AfterMarks(events, changes)[c.eventId := MarkEvent(AfterMarks(events, changes)[c.eventId], c.duplicateOf)]
  {
    assert (changes + [c])[..|changes|] == changes;
  }

  lemma {:induction false} AfterMarksKeepsContents(events: map<string, Event>, changes: seq<Change>)
    ensures Contents(AfterMarks(events, changes)) == Contents(events)
  {
  }

  lemma {:induction false} NoMarks(events: map<string, Event>)
    ensures AfterMarks(events, []) == events
  {
  }

  /** Writes the marks of one kept event. */
  method MarkAll(repo: EventRepository, found: seq<Event>, keeper: string, dryRun: bool,
    ghost before: map<string, Event>, changes: seq<Change>) returns (changes': seq<Change>)
    requires repo.Valid() && repo.events == if dryRun then before else AfterMarks(before, changes)
    requires forall i :: 0 <= i < |found| ==> found[i].id in repo.events && found[i] == repo.events[found[i].id]
    requires forall i :: 0 <= i < |found| ==> found[i].id in before
    modifies repo`events
    ensures repo.Valid() && changes' == changes + Marks(Ids(found), keeper)
    ensures repo.events == if dryRun then before else AfterMarks(before, changes')
  {
    changes' := changes;
    for i := 0 to |found|
      invariant repo.Valid()
      invariant changes' == changes + Marks(Ids(found), keeper)[..i]
      invariant repo.events == if dryRun then before else AfterMarks(before, changes')
      invariant forall j :: 0 <= j < |found| ==> found[j].id in repo.events && found[j].content == repo.events[found[j].id].content
    {
      var c := Change(found[i].id, keeper);
      AfterMarksSnoc(before, changes', c);
      if !dryRun {
        repo.UpsertEvent(MarkEvent(found[i], keeper));
        MarkIgnoresStatus(found[i], repo.events[found[i].id], keeper);
      }
      changes' := changes' + [c];
    }
  }

  lemma {:induction false} MarkIgnoresStatus(a: Event, b: Event, keeper: string)
    requires a.id == b.id && a.content == b.content
    ensures MarkEvent(a, keeper) == MarkEvent(b, keeper)
  {
  }

  /** The answer for one kept event, and its marks. */
  method MarkSimilar(repo: EventRepository, event: Event, limit: nat, dryRun: bool,
    ghost before: map<string, Event>, changes: seq<Change>) returns (changes': seq<Change>, similar: seq<string>)
    requires repo.Valid() && repo.events == if dryRun then before else AfterMarks(before, changes)
    requires event.id in before && event.content == before[event.id].content
    modifies repo`events
    ensures repo.Valid()
    ensures similar == Others(SimilarityOf(repo.listing, repo.alike, Contents(before), limit)(event.id), event.id)
    ensures changes' == changes + Marks(similar, event.id)
    ensures repo.events == if dryRun then before else AfterMarks(before, changes')
  {
    AfterMarksKeepsContents(before, changes);
    SimilarIdsOthers(repo.listing, repo.alike, Contents(before), event.content, event.id, limit);
    var found := repo.FindSimilarEvents(event, limit);
    similar := Ids(found);
    changes' := MarkAll(repo, found, event.id, dryRun, before, changes);
  }

  /** `dedupe_events`.  A dry run reports the same changes as a real run and writes nothing; a real
      run gives every reported event the status and the last keeper, and touches no other event. */
  method DedupeEvents(repo: EventRepository, scanned: seq<Event>, limit: nat, dryRun: bool)
    returns (changes: seq<Change>, changed: nat, skipped: nat)
    requires repo.Valid()
    requires forall i :: 0 <= i < |scanned| ==>
      scanned[i].id in repo.events && scanned[i].content == repo.events[scanned[i].id].content
    modifies repo`events
    ensures repo.Valid()
    ensures changes == Scan(SimilarityOf(repo.listing, repo.alike, Contents(old(repo.events)), limit), Ids(scanned)).changes
    ensures repo.events == if dryRun then old(repo.events) else AfterMarks(old(repo.events), changes)
    ensures changed == |changes| && skipped == if |scanned| > |changes| then |scanned| - |changes| else 0
  {
    ghost var before := repo.events;
    ghost var similarTo := SimilarityOf(repo.listing, repo.alike, Contents(before), limit);
    changes := [];
    var seen: set<string> := {};
    NoMarks(before);
    for i := 0 to |scanned|
      invariant repo.Valid()
      invariant changes == Scan(similarTo, Ids(scanned)[..i]).changes
      invariant seen == Scan(similarTo, Ids(scanned)[..i]).seen
      invariant repo.events == if dryRun then before else AfterMarks(before, changes)
    {
      ScanSnoc(similarTo, Ids(scanned), i);
      if scanned[i].id !in seen {
        var similar;
        changes, similar := MarkSimilar(repo, scanned[i], limit, dryRun, before, changes);
        seen := seen + set x | x in similar;
      }
    }
    assert Ids(scanned)[..|scanned|] == Ids(scanned);
    changed := |changes|;
    skipped := if |scanned| > |changes| then |scanned| - |changes| else 0;
  }

  lemma {:induction false} ScanSnoc(similarTo: Similarity, events: seq<string>, i: nat)
    requires i < |events|
    ensures Scan(similarTo, events[..i + 1]) == Step(similarTo, Scan(similarTo, events[..i]), events[i])
  {
    assert events[..i + 1][..i] == events[..i];
  }

  lemma {:induction false} LastMarkIsAMark(changes: seq<Change>, id: string)
    ensures LastMark(changes, id).None? <==> forall c :: c in changes ==> c.eventId != id
    ensures LastMark(changes, id).Some? ==> Change(id, LastMark(changes, id).value) in changes
  {
    if changes != [] {
      LastMarkIsAMark(changes[..|changes| - 1], id);
      assert changes == changes[..|changes| - 1] + [changes[|changes| - 1]];
    }
  }

  /** What a real run over a symmetric similarity leaves in the table: kept events as they were, and
      every other scanned event marked as a duplicate of a kept event it is similar to. */
  lemma {:induction false} RealRunOutcome(similarTo: Similarity, events: seq<string>, table: map<string, Event>, id: string)
    requires Symmetric(similarTo) && id in events && id in table
    ensures
      var pass := Scan(similarTo, events);
      var after := AfterMarks(table, pass.changes)[id];
      if id in pass.kept then after == table[id]
      else after.status == "duplicate" && after.content == table[id].content && after.duplicateOf.Some? &&
           after.duplicateOf.value in pass.kept && Similar(similarTo, after.duplicateOf.value, id)
  {
    var pass := Scan(similarTo, events);
    KeptIsMaximalIndependent(similarTo, events);
    MarksNameKeepers(similarTo, events);
    LastMarkIsAMark(pass.changes, id);
    if id in pass.kept {
      assert !Marked(pass, id);
    }
  }

  // ---------------------------------------------------------------- when the repository is symmetric

  /** Of two different stored events each is alike to the other or neither is. */
  ghost predicate AlikeBothWays(alike: (Content, Content) -> bool, contents: map<string, Content>) {
    forall a, b :: a in contents && b in contents && a != b && alike(contents[a], contents[b]) ==> alike(contents[b], contents[a])
  }

  /** Every stored event is listed, and the limit cuts none of their answers short. */
  ghost predicate Uncut(listing: seq<string>, alike: (Content, Content) -> bool, contents: map<string, Content>, limit: nat) {
    forall id :: id in contents ==>
      id in listing && |Matching(listing, alike, contents, contents[id], id)| <= AtLeastOne(limit)
  }

  /** In particular when the whole table fits within the limit. */
  lemma {:induction false} SmallTableIsUncut(listing: seq<string>, alike: (Content, Content) -> bool, contents: map<string, Content>, limit: nat)
    requires |listing| <= AtLeastOne(limit) && forall id :: id in contents ==> id in listing
    ensures Uncut(listing, alike, contents, limit)
  {
    forall id | id in contents
      ensures |Matching(listing, alike, contents, contents[id], id)| <= AtLeastOne(limit)
    {
      MatchingMembers(listing, alike, contents, contents[id], id);
    }
  }

  lemma {:induction false} MatchingMembers(listing: seq<string>, alike: (Content, Content) -> bool,
    contents: map<string, Content>, content: Content, self: string)
    ensures |Matching(listing, alike, contents, content, self)| <= |listing|
    ensures forall x :: x in Matching(listing, alike, contents, content, self) <==>
                        x in listing && x in contents && x != self && alike(content, contents[x])
  {
    if listing != [] {
      MatchingMembers(listing[..|listing| - 1], alike, contents, content, self);
      assert listing == listing[..|listing| - 1] + [listing[|listing| - 1]];
    }
  }

  lemma {:induction false} UncutSimilarIff(
    listing: seq<string>, alike: (Content, Content) -> bool, contents: map<string, Content>, limit: nat, a: string, b: string)
    requires Uncut(listing, alike, contents, limit)
    ensures Similar(SimilarityOf(listing, alike, contents, limit), a, b) <==>
              a != b && a in contents && b in contents && alike(contents[a], contents[b])
  {
    if a in contents {
      MatchingMembers(listing, alike, contents, contents[a], a);
    }
  }

  /** Where no answer is cut a pass never marks a kept event, whatever is scanned, exactly when likeness goes both
      ways among the stored events. */
  lemma {:induction false} UncutKeptSafeIff(
    listing: seq<string>, alike: (Content, Content) -> bool, contents: map<string, Content>, limit: nat)
    requires Uncut(listing, alike, contents, limit)
    ensures NeverMarksKept(SimilarityOf(listing, alike, contents, limit)) <==> AlikeBothWays(alike, contents)
    ensures Symmetric(SimilarityOf(listing, alike, contents, limit)) <==> AlikeBothWays(alike, contents)
  {
    var similarTo := SimilarityOf(listing, alike, contents, limit);
    KeptSafeIffSymmetric(similarTo);
    if AlikeBothWays(alike, contents) {
      forall a, b | Similar(similarTo, a, b) ensures Similar(similarTo, b, a) {
        UncutSimilarIff(listing, alike, contents, limit, a, b);
        UncutSimilarIff(listing, alike, contents, limit, b, a);
      }
    }
    if Symmetric(similarTo) {
      forall a, b | a in contents && b in contents && a != b && alike(contents[a], contents[b])
        ensures alike(contents[b], contents[a])
      {
        UncutSimilarIff(listing, alike, contents, limit, a, b);
        UncutSimilarIff(listing, alike, contents, limit, b, a);
      }
    }
  }

  /** What `DedupeEvents` leaves in the table of a repository whose answers are not cut and whose likeness
      goes both ways: kept events as they were, every other scanned one marked with a kept event alike. */
  lemma {:induction false} UncutRunOutcome(
    listing: seq<string>, alike: (Content, Content) -> bool, table: map<string, Event>, limit: nat, scanned: seq<string>, id: string)
    requires Uncut(listing, alike, Contents(table), limit) && AlikeBothWays(alike, Contents(table))
    requires id in scanned && id in table
    ensures
      var pass := Scan(SimilarityOf(listing, alike, Contents(table), limit), scanned);
      var after := AfterMarks(table, pass.changes)[id];
      if id in pass.kept then after == table[id]
      else after.status == "duplicate" && after.content == table[id].content && after.duplicateOf.Some? &&
           var keeper := after.duplicateOf.value;
           keeper in pass.kept && keeper in table && alike(table[keeper].content, table[id].content)
  {
    var similarTo := SimilarityOf(listing, alike, Contents(table), limit);
    UncutKeptSafeIff(listing, alike, Contents(table), limit);
    RealRunOutcome(similarTo, scanned, table, id);
    var after := AfterMarks(table, Scan(similarTo, scanned).changes)[id];
    if id !in Scan(similarTo, scanned).kept {
      UncutSimilarIff(listing, alike, Contents(table), limit, after.duplicateOf.value, id);
    }
  }

  /** Of two events of different types and topics, the one with the longer text is kept and then marked, as
      soon as its title contains the other's but not the other way round. */
  lemma {:induction false} PatternMarksKept(ilike: (string, string) -> bool, longer: Content, shorter: Content)
    requires longer.eventType != shorter.eventType && (longer.topic.None? || longer.topic != shorter.topic)
    requires ilike(longer.title, shorter.title) && !ilike(shorter.title, longer.title) && !ilike(shorter.summary, longer.summary)
    ensures
      var alike := (a: Content, b: Content) => QueryAlike(ilike, a, b);
      var pass := Scan(SimilarityOf(["a", "b"], alike, map["a" := longer, "b" := shorter], 100), ["a", "b"]);
      pass.kept == ["a", "b"] && Change("a", "b") in pass.changes
  {
    var alike := (a: Content, b: Content) => QueryAlike(ilike, a, b);
    var contents := map["a" := longer, "b" := shorter];
    var similarTo := SimilarityOf(["a", "b"], alike, contents, 100);
    SmallTableIsUncut(["a", "b"], alike, contents, 100);
    UncutSimilarIff(["a", "b"], alike, contents, 100, "a", "b");
    UncutSimilarIff(["a", "b"], alike, contents, 100, "b", "a");
    assert Scan(similarTo, ["a", "b"][..1]) == Step(similarTo, EMPTY, "a") by {
      assert ["a", "b"][..1] == ["a"] && ["a"][..0] == [];
    }
    assert "b" !in Scan(similarTo, ["a", "b"][..1]).seen;
    assert Scan(similarTo, ["a", "b"]).kept == ["a"] + ["b"];
    MarksNameKeepers(similarTo, ["a", "b"]);
  }

  /** A cut breaks even a likeness that goes both ways: of three events of one type, each alike to the
      others, the third is told of the first only, which is kept already. */
  lemma {:induction false} CutMarksKept(ilike: (string, string) -> bool, c: Content)
    ensures
      var alike := (a: Content, b: Content) => QueryAlike(ilike, a, b);
      var contents := map["x" := c, "y" := c, "z" := c];
      var pass := Scan(SimilarityOf(["x", "y", "z"], alike, contents, 1), ["x", "y", "z"]);
      AlikeBothWays(alike, contents) && pass.kept == ["x", "z"] && Change("x", "z") in pass.changes
  {
    var alike := (a: Content, b: Content) => QueryAlike(ilike, a, b);
    var contents := map["x" := c, "y" := c, "z" := c];
    var similarTo := SimilarityOf(["x", "y", "z"], alike, contents, 1);
    FirstAnswer(alike, contents, c);
    ScanThree(similarTo);
  }

  lemma {:induction false} ScanThree(similarTo: Similarity)
    requires similarTo("x") == ["y"] && similarTo("z") == ["x"]
    ensures
      var pass := Scan(similarTo, ["x", "y", "z"]);
      pass.kept == ["x", "z"] && Change("x", "z") in pass.changes
  {
    var all := ["x", "y", "z"];
    assert all[..2][..1] == ["x"] && ["x"][..0] == [] && all[..2] == ["x", "y"];
    assert Scan(similarTo, ["x"]) == Step(similarTo, EMPTY, "x");
    assert Scan(similarTo, ["x"]).kept == [] + ["x"];
    assert Scan(similarTo, ["x", "y"]) == Scan(similarTo, ["x"]);
    assert Scan(similarTo, all).kept == ["x"] + ["z"];
    MarksNameKeepers(similarTo, all);
    assert Similar(similarTo, "z", "x");
  }

  lemma {:induction false} FirstAnswer(alike: (Content, Content) -> bool, contents: map<string, Content>, c: Content)
    requires contents == map["x" := c, "y" := c, "z" := c] && alike(c, c)
    ensures SimilarIds(["x", "y", "z"], alike, contents, c, "x", 1) == ["y"]
    ensures SimilarIds(["x", "y", "z"], alike, contents, c, "z", 1) == ["x"]
  {
    var all := ["x", "y", "z"];
    assert all[..2] == ["x", "y"] && all[..2][..1] == ["x"] && ["x"][..0] == [];
    forall self ensures Matching(all, alike, contents, c, self) ==
      (if "x" != self then ["x"] else []) + (if "y" != self then ["y"] else []) + (if "z" != self then ["z"] else [])
    {
      assert Matching(all[..2][..1], alike, contents, c, self) == [] + if "x" != self then ["x"] else [];
    }
  }
}
