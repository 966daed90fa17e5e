/**
 Acceptance of the observation lists of a compatibility release: queries, checkpoints and projections
 of durable-event runs.  The verifier walks the three lists, fills dictionaries of watermarks per run,
 and finally compares maxima.  It is proved equivalent to a predicate that mentions no order.

 A record whose JSON shape, identifiers, URIs or checksums are wrong is `Malformed`.
 */
module Observations {
  import opened Wrappers

  const MAX_OBSERVATION_RECORDS := 1000

  datatype Raw<+T> = Malformed | Record(item: T)

  datatype Query = Query(
    surface: string, requestId: string, runId: string, observedAt: int, sequence: int, sourceWatermark: int,
    durableSource: bool, fallbackUsed: bool, succeeded: bool)

  datatype Checkpoint = Checkpoint(
    checkpointId: string, runId: string, observedAt: int, sequence: int, sourceWatermark: int,
    sequenceBase: int, legacyOffsetUsed: bool)

  datatype Projection = Projection(
    projectionId: string, runId: string, observedAt: int,
    storeWatermark: int, manifestWatermark: int, projectionWatermark: int,
    secretFindings: int, writeBacks: int)

  datatype Window = Window(startedAt: int, endedAt: int)

  datatype Reason =
    | ListMissing
    | LimitExceeded
    | RecordRefused
    | DuplicateId
    | SurfaceCoverageIncomplete
    | RunCorrelationIncomplete
    | SourceNotCovered

  // ---------------------------------------------------------------- single records

  predicate InWindow(t: int, w: Window) {
    w.startedAt <= t <= w.endedAt
  }

  predicate QueryOk(raw: Raw<Query>, w: Window, surfaces: set<string>) {
    raw.Record? &&
    var q := raw.item;
    q.surface in surfaces && InWindow(q.observedAt, w) && 0 < q.sequence <= q.sourceWatermark &&
    q.durableSource && !q.fallbackUsed && q.succeeded
  }

  predicate CheckpointOk(raw: Raw<Checkpoint>, w: Window) {
    raw.Record? &&
    var c := raw.item;
    InWindow(c.observedAt, w) && 0 < c.sequence <= c.sourceWatermark && c.sequenceBase == 1 && !c.legacyOffsetUsed
  }

  predicate ProjectionOk(raw: Raw<Projection>, w: Window) {
    raw.Record? &&
    var p := raw.item;
    InWindow(p.observedAt, w) && 0 < p.storeWatermark && p.storeWatermark == p.manifestWatermark == p.projectionWatermark &&
    p.secretFindings == 0 && p.writeBacks == 0
  }

  /** What the dictionaries keep of an accepted record. */
  datatype Sample = Sample(id: string, run: string, watermark: int)

  function QuerySample(q: Query): Sample { Sample(q.requestId, q.runId, q.sourceWatermark) }
  function CheckpointSample(c: Checkpoint): Sample { Sample(c.checkpointId, c.runId, c.sourceWatermark) }
  function ProjectionSample(p: Projection): Sample { Sample(p.projectionId, p.runId, p.projectionWatermark) }

  // ---------------------------------------------------------------- acceptance without order

  ghost predicate DistinctIds<T>(items: seq<Raw<T>>, sample: T -> Sample) {
    forall i, j :: 0 <= i < j < |items| && items[i].Record? && items[j].Record? ==>
      sample(items[i].item).id != sample(items[j].item).id
  }

  ghost predicate HasRun<T(!new)>(items: seq<Raw<T>>, sample: T -> Sample, run: string) {
    exists x :: Record(x) in items && sample(x).run == run
  }

  /** Some projection of the sample's run reaches its watermark. */
  ghost predicate Reached(projections: seq<Raw<Projection>>, s: Sample) {
    exists p :: Record(p) in projections && p.runId == s.run && p.projectionWatermark >= s.watermark
  }

  ghost predicate Sized<T>(items: seq<Raw<T>>) {
    0 < |items| <= MAX_OBSERVATION_RECORDS
  }

  ghost predicate AcceptsQueries(queries: seq<Raw<Query>>, w: Window, surfaces: set<string>) {
    (forall q :: q in queries ==> QueryOk(q, w, surfaces)) && DistinctIds(queries, QuerySample)
  }

  ghost predicate AcceptsCheckpoints(checkpoints: seq<Raw<Checkpoint>>, w: Window) {
    (forall c :: c in checkpoints ==> CheckpointOk(c, w)) && DistinctIds(checkpoints, CheckpointSample)
  }

  ghost predicate AcceptsProjections(projections: seq<Raw<Projection>>, w: Window) {
    (forall p :: p in projections ==> ProjectionOk(p, w)) && DistinctIds(projections, ProjectionSample)
  }

  ghost predicate SurfacesCovered(queries: seq<Raw<Query>>, surfaces: set<string>) {
    forall s :: s in surfaces <==> exists q :: Record(q) in queries && q.surface == s
  }

  ghost predicate RunsCoincide(queries: seq<Raw<Query>>, checkpoints: seq<Raw<Checkpoint>>, projections: seq<Raw<Projection>>) {
    forall run ::
      (HasRun(queries, QuerySample, run) <==> HasRun(checkpoints, CheckpointSample, run)) &&
      (HasRun(queries, QuerySample, run) <==> HasRun(projections, ProjectionSample, run))
  }

  ghost predicate SourcesReached(queries: seq<Raw<Query>>, checkpoints: seq<Raw<Checkpoint>>, projections: seq<Raw<Projection>>) {
    (forall q :: Record(q) in queries ==> Reached(projections, QuerySample(q))) &&
    (forall c :: Record(c) in checkpoints ==> Reached(projections, CheckpointSample(c)))
  }

  ghost predicate Accepts(
    queries: seq<Raw<Query>>, checkpoints: seq<Raw<Checkpoint>>, projections: seq<Raw<Projection>>,
    w: Window, surfaces: set<string>)
  {
    && Sized(queries) && Sized(checkpoints) && Sized(projections)
    && AcceptsQueries(queries, w, surfaces)
    && AcceptsCheckpoints(checkpoints, w)
    && AcceptsProjections(projections, w)
    && SurfacesCovered(queries, surfaces)
    && RunsCoincide(queries, checkpoints, projections)
    && SourcesReached(queries, checkpoints, projections)
  }

  // ---------------------------------------------------------------- the dictionary of watermarks

  /** `watermarks` is what `setdefault(run, []).append(watermark)` builds from the first records. */
  ghost predicate Grouped<T(!new)>(items: seq<Raw<T>>, sample: T -> Sample, watermarks: map<string, seq<int>>) {
    (forall run :: run in watermarks <==> HasRun(items, sample, run)) &&
    (forall run, v :: run in watermarks ==>
       (v in watermarks[run] <==> exists x :: Record(x) in items && sample(x).run == run && sample(x).watermark == v)) &&
    (forall run :: run in watermarks ==> watermarks[run] != [])
  }

  /** One of the three walks: refuse a bad record or a repeated id, otherwise collect the watermark. */
  method Walk<T(!new)>(items: seq<Raw<T>>, ok: Raw<T> -> bool, sample: T -> Sample)
    returns (reason: Option<Reason>, watermarks: map<string, seq<int>>)
    requires forall x :: ok(x) ==> x.Record?
    ensures reason.None? <==> (forall x :: x in items ==> ok(x)) && DistinctIds(items, sample)
    ensures reason.None? ==> Grouped(items, sample, watermarks)
    ensures reason == Some(RecordRefused) ==> exists x :: x in items && !ok(x)
    ensures reason == Some(DuplicateId) ==> !DistinctIds(items, sample)
    ensures reason.None? || reason.value == RecordRefused || reason.value == DuplicateId
  {
    watermarks := map[];
    var ids: set<string> := {};
    for i := 0 to |items|
      invariant forall j :: 0 <= j < i ==> ok(items[j])
      invariant forall id :: id in ids <==> exists j :: 0 <= j < i && sample(items[j].item).id == id
      invariant DistinctIds(items[..i], sample)
      invariant Grouped(items[..i], sample, watermarks)
    {
      assert items[..i + 1] == items[..i] + [items[i]];
      if !ok(items[i]) {
        assert items[i] in items;
        return Some(RecordRefused), map[];
      }
      var s := sample(items[i].item);
      if s.id in ids {
        var j :| 0 <= j < i && sample(items[j].item).id == s.id;
        return Some(DuplicateId), map[];
      }
      ids := ids + {s.id};
      GroupedSnoc(items[..i], items[i].item, sample, watermarks);
      watermarks := watermarks[s.run := (if s.run in watermarks then watermarks[s.run] else []) + [s.watermark]];
    }
    assert items[..|items|] == items;
    reason := None;
  }

  lemma {:induction false} GroupedSnoc<T(!new)>(items: seq<Raw<T>>, x: T, sample: T -> Sample, watermarks: map<string, seq<int>>)
    requires Grouped(items, sample, watermarks)
    ensures
      var s := sample(x);
      Grouped(items + [Record(x)], sample,
        watermarks[s.run := (if s.run in watermarks then watermarks[s.run] else []) + [s.watermark]])
  {
    var s := sample(x);
    var longer := items + [Record(x)];
    var after := watermarks[s.run := (if s.run in watermarks then watermarks[s.run] else []) + [s.watermark]];
    assert Record(x) in longer;
    forall run ensures run in after <==> HasRun(longer, sample, run) {
      if HasRun(items, sample, run) {
        var y :| Record(y) in items && sample(y).run == run;
        assert Record(y) in longer;
      }
    }
    forall run, v | run in after
      ensures v in after[run] <==> exists y :: Record(y) in longer && sample(y).run == run && sample(y).watermark == v
    {
      if exists y :: Record(y) in items && sample(y).run == run && sample(y).watermark == v {
        var y :| Record(y) in items && sample(y).run == run && sample(y).watermark == v;
        assert Record(y) in longer;
        assert HasRun(items, sample, run);
      }
      if v in after[run] && run in watermarks && v in watermarks[run] {
        var y :| Record(y) in items && sample(y).run == run && sample(y).watermark == v;
        assert Record(y) in longer;
      }
    }
  }

  method MaxOf(values: seq<int>) returns (m: int)
    requires values != []
    ensures m in values && forall v :: v in values ==> v <= m
  {
    m := values[0];
    for i := 1 to |values|
      invariant m in values[..i] && forall v :: v in values[..i] ==> v <= m
    {
      assert values[..i + 1] == values[..i] + [values[i]];
      if values[i] > m {
        m := values[i];
      }
    }
    assert values[..|values|] == values;
  }

  // ---------------------------------------------------------------- the verifier

  method VerifyObservations(
    queries: seq<Raw<Query>>, checkpoints: seq<Raw<Checkpoint>>, projections: seq<Raw<Projection>>,
    w: Window, surfaces: set<string>) returns (reason: Option<Reason>)
    ensures reason.None? <==> Accepts(queries, checkpoints, projections, w, surfaces)
    ensures reason == Some(SurfaceCoverageIncomplete) ==> !SurfacesCovered(queries, surfaces)
    ensures reason == Some(RunCorrelationIncomplete) ==> !RunsCoincide(queries, checkpoints, projections)
    ensures reason == Some(SourceNotCovered) ==> !SourcesReached(queries, checkpoints, projections)
  {
    if queries == [] || checkpoints == [] || projections == [] {
      return Some(ListMissing);
    }
    if |queries| > MAX_OBSERVATION_RECORDS || |checkpoints| > MAX_OBSERVATION_RECORDS || |projections| > MAX_OBSERVATION_RECORDS {
      return Some(LimitExceeded);
    }
    var queryMarks, checkpointMarks, projectionMarks;
    reason, queryMarks := Walk(queries, q => QueryOk(q, w, surfaces), QuerySample);
    if reason.Some? { return; }
    reason, checkpointMarks := Walk(checkpoints, c => CheckpointOk(c, w), CheckpointSample);
    if reason.Some? { return; }
    reason, projectionMarks := Walk(projections, p => ProjectionOk(p, w), ProjectionSample);
    if reason.Some? { return; }
    reason := Correlate(queries, checkpoints, projections, surfaces, queryMarks, checkpointMarks, projectionMarks);
  }

  /** The checks across the three lists, on the dictionaries the walks have built. */
  method Correlate(
    queries: seq<Raw<Query>>, checkpoints: seq<Raw<Checkpoint>>, projections: seq<Raw<Projection>>, surfaces: set<string>,
    queryMarks: map<string, seq<int>>, checkpointMarks: map<string, seq<int>>, projectionMarks: map<string, seq<int>>)
    returns (reason: Option<Reason>)
    requires Grouped(queries, QuerySample, queryMarks)
    requires Grouped(checkpoints, CheckpointSample, checkpointMarks)
    requires Grouped(projections, ProjectionSample, projectionMarks)
    ensures reason.None? <==>
      SurfacesCovered(queries, surfaces) && RunsCoincide(queries, checkpoints, projections) &&
      SourcesReached(queries, checkpoints, projections)
    ensures reason == Some(SurfaceCoverageIncomplete) ==> !SurfacesCovered(queries, surfaces)
    ensures reason == Some(RunCorrelationIncomplete) ==> !RunsCoincide(queries, checkpoints, projections)
    ensures reason == Some(SourceNotCovered) ==> !SourcesReached(queries, checkpoints, projections)
  {
    var seenSurfaces := set i | 0 <= i < |queries| && queries[i].Record? :: queries[i].item.surface;
    SeenSurfaces(queries, surfaces, seenSurfaces);
    if seenSurfaces != surfaces {
      return Some(SurfaceCoverageIncomplete);
    }
    RunSets(queries, checkpoints, projections, queryMarks, checkpointMarks, projectionMarks);
    if queryMarks.Keys != checkpointMarks.Keys || queryMarks.Keys != projectionMarks.Keys {
      return Some(RunCorrelationIncomplete);
    }
    var covered := CoversSources(queryMarks, checkpointMarks, projectionMarks);
    CoverageByMaxima(queries, checkpoints, projections, queryMarks, checkpointMarks, projectionMarks);
    reason := if covered then None else Some(SourceNotCovered);
  }

  lemma {:induction false} SeenSurfaces(queries: seq<Raw<Query>>, surfaces: set<string>, seen: set<string>)
    requires seen == set i | 0 <= i < |queries| && queries[i].Record? :: queries[i].item.surface
    ensures seen == surfaces <==> SurfacesCovered(queries, surfaces)
  {
    forall s ensures s in seen <==> exists q :: Record(q) in queries && q.surface == s {
      if s in seen {
        var i :| 0 <= i < |queries| && queries[i].Record? && queries[i].item.surface == s;
        assert Record(queries[i].item) in queries;
      }
    }
  }

  lemma {:induction false} RunSets(queries: seq<Raw<Query>>, checkpoints: seq<Raw<Checkpoint>>, projections: seq<Raw<Projection>>,
    queryMarks: map<string, seq<int>>, checkpointMarks: map<string, seq<int>>, projectionMarks: map<string, seq<int>>)
    requires Grouped(queries, QuerySample, queryMarks)
    requires Grouped(checkpoints, CheckpointSample, checkpointMarks)
    requires Grouped(projections, ProjectionSample, projectionMarks)
    ensures queryMarks.Keys == checkpointMarks.Keys == projectionMarks.Keys <==> RunsCoincide(queries, checkpoints, projections)
  {
  }

  /** The greatest projection watermark of a run reaches everything its sources saw. */
  ghost predicate MaximaCover(
    queryMarks: map<string, seq<int>>, checkpointMarks: map<string, seq<int>>, projectionMarks: map<string, seq<int>>, run: string)
    requires run in queryMarks && run in checkpointMarks && run in projectionMarks
  {
    forall v :: v in queryMarks[run] + checkpointMarks[run] ==> AnyAtLeast(projectionMarks[run], v)
  }

  predicate AnyAtLeast(values: seq<int>, v: int) {
    exists p :: p in values && p >= v
  }

  method CoversSources(
    queryMarks: map<string, seq<int>>, checkpointMarks: map<string, seq<int>>, projectionMarks: map<string, seq<int>>)
    returns (covered: bool)
    requires queryMarks.Keys == checkpointMarks.Keys == projectionMarks.Keys
    requires forall run :: run in queryMarks ==> queryMarks[run] != [] && projectionMarks[run] != []
    ensures covered <==> forall run :: run in queryMarks ==> MaximaCover(queryMarks, checkpointMarks, projectionMarks, run)
  {
    var rest := queryMarks.Keys;
    while rest != {}
      invariant rest <= queryMarks.Keys
      invariant forall run :: run in queryMarks && run !in rest ==> MaximaCover(queryMarks, checkpointMarks, projectionMarks, run)
      decreases rest
    {
      var run :| run in rest;
      var projected := MaxOf(projectionMarks[run]);
      var source := MaxOf(queryMarks[run] + checkpointMarks[run]);
      if projected < source {
        assert !MaximaCover(queryMarks, checkpointMarks, projectionMarks, run);
        return false;
      }
      assert MaximaCover(queryMarks, checkpointMarks, projectionMarks, run);
      rest := rest - {run};
    }
    covered := true;
  }

  lemma {:induction false} ReachedByMarks(projections: seq<Raw<Projection>>, projectionMarks: map<string, seq<int>>, s: Sample)
    requires Grouped(projections, ProjectionSample, projectionMarks) && s.run in projectionMarks
    ensures Reached(projections, s) <==> AnyAtLeast(projectionMarks[s.run], s.watermark)
  {
    if Reached(projections, s) {
      var p :| Record(p) in projections && p.runId == s.run && p.projectionWatermark >= s.watermark;
      assert ProjectionSample(p).run == s.run && ProjectionSample(p).watermark == p.projectionWatermark;
      assert p.projectionWatermark in projectionMarks[s.run];
    }
    if AnyAtLeast(projectionMarks[s.run], s.watermark) {
      var v :| v in projectionMarks[s.run] && v >= s.watermark;
      var p :| Record(p) in projections && ProjectionSample(p).run == s.run && ProjectionSample(p).watermark == v;
    }
  }

  /** One source list: all its records are reached exactly when all its grouped watermarks are. */
  lemma {:induction false} ReachedByRuns<T(!new)>(items: seq<Raw<T>>, sample: T -> Sample, marks: map<string, seq<int>>,
    projections: seq<Raw<Projection>>, projectionMarks: map<string, seq<int>>)
    requires Grouped(items, sample, marks) && Grouped(projections, ProjectionSample, projectionMarks)
    requires marks.Keys == projectionMarks.Keys
    ensures (forall x :: Record(x) in items ==> Reached(projections, sample(x)))
       <==> (forall run, v :: run in marks && v in marks[run] ==> AnyAtLeast(projectionMarks[run], v))
  {
    forall x | Record(x) in items
      ensures sample(x).run in marks && sample(x).watermark in marks[sample(x).run]
      ensures Reached(projections, sample(x)) <==> AnyAtLeast(projectionMarks[sample(x).run], sample(x).watermark)
    {
      assert HasRun(items, sample, sample(x).run);
      ReachedByMarks(projections, projectionMarks, sample(x));
    }
    if forall x :: Record(x) in items ==> Reached(projections, sample(x)) {
      forall run, v | run in marks && v in marks[run] ensures AnyAtLeast(projectionMarks[run], v) {
        var x :| Record(x) in items && sample(x).run == run && sample(x).watermark == v;
        assert Reached(projections, sample(x));
      }
    }
  }

  lemma {:induction false} CoverageByMaxima(queries: seq<Raw<Query>>, checkpoints: seq<Raw<Checkpoint>>, projections: seq<Raw<Projection>>,
    queryMarks: map<string, seq<int>>, checkpointMarks: map<string, seq<int>>, projectionMarks: map<string, seq<int>>)
    requires Grouped(queries, QuerySample, queryMarks)
    requires Grouped(checkpoints, CheckpointSample, checkpointMarks)
    requires Grouped(projections, ProjectionSample, projectionMarks)
    requires queryMarks.Keys == checkpointMarks.Keys == projectionMarks.Keys
    ensures (forall run :: run in queryMarks ==> MaximaCover(queryMarks, checkpointMarks, projectionMarks, run))
       <==> SourcesReached(queries, checkpoints, projections)
  {
    ReachedByRuns(queries, QuerySample, queryMarks, projections, projectionMarks);
    ReachedByRuns(checkpoints, CheckpointSample, checkpointMarks, projections, projectionMarks);
    forall run, v | run in queryMarks
      ensures v in queryMarks[run] + checkpointMarks[run] <==> v in queryMarks[run] || v in checkpointMarks[run] {}
  }

  // ---------------------------------------------------------------- what acceptance means

  /** Projection `p` of `run` has three equal watermarks, at or past `sequence`. */
  predicate ProjectsRun(p: Projection, run: string, sequence: int) {
    p.runId == run && p.storeWatermark == p.manifestWatermark == p.projectionWatermark >= sequence > 0
  }

  /** Every accepted query or checkpoint at sequence `s` of a run is covered by a projection of that
      run whose three equal watermarks are at least `s`; and each run seen anywhere is seen in all
      three lists. */
  lemma {:induction false} AcceptedSequencesAreProjected(
    queries: seq<Raw<Query>>, checkpoints: seq<Raw<Checkpoint>>, projections: seq<Raw<Projection>>,
    w: Window, surfaces: set<string>, run: string, sequence: int)
    requires Accepts(queries, checkpoints, projections, w, surfaces)
    requires
      (exists q :: Record(q) in queries && q.runId == run && q.sequence == sequence) ||
      (exists c :: Record(c) in checkpoints && c.runId == run && c.sequence == sequence)
    ensures exists p :: Record(p) in projections && ProjectsRun(p, run, sequence)
    ensures HasRun(queries, QuerySample, run) && HasRun(checkpoints, CheckpointSample, run)
  {
    var s: Sample;
    if q :| Record(q) in queries && q.runId == run && q.sequence == sequence {
      assert QueryOk(Record(q), w, surfaces);
      s := QuerySample(q);
      assert HasRun(queries, QuerySample, run);
    } else {
      var c :| Record(c) in checkpoints && c.runId == run && c.sequence == sequence;
      assert CheckpointOk(Record(c), w);
      s := CheckpointSample(c);
      assert HasRun(checkpoints, CheckpointSample, run);
    }
    var p :| Record(p) in projections && p.runId == run && p.projectionWatermark >= s.watermark;
    assert ProjectionOk(Record(p), w) && ProjectsRun(p, run, sequence);
  }

  lemma {:induction false} DistinctByCount<T>(items: seq<Raw<T>>, sample: T -> Sample)
    requires forall x :: x in items ==> x.Record?
    ensures DistinctIds(items, sample) <==>
      (forall x :: x in items ==> multiset(items)[x] == 1) &&
      (forall x, y :: x in items && y in items && sample(x.item).id == sample(y.item).id ==> x == y)
  {
    if DistinctIds(items, sample) {
      forall x, y | x in items && y in items && sample(x.item).id == sample(y.item).id ensures x == y {
        var i :| 0 <= i < |items| && items[i] == x;
        var j :| 0 <= j < |items| && items[j] == y;
      }
      forall x | x in items ensures multiset(items)[x] == 1 {
        if multiset(items)[x] != 1 {
          var i, j := TwoPlaces(items, x);
        }
      }
    }
    if (forall x :: x in items ==> multiset(items)[x] == 1) &&
       (forall x, y :: x in items && y in items && sample(x.item).id == sample(y.item).id ==> x == y) {
      forall i, j | 0 <= i < j < |items| ensures sample(items[i].item).id != sample(items[j].item).id {
        if items[i] == items[j] {
          TwoPlacesCount(items, i, j);
        }
      }
    }
  }

  lemma {:induction false} TwoPlaces<T>(items: seq<T>, x: T) returns (i: nat, j: nat)
    requires x in items && multiset(items)[x] != 1
    ensures i < j < |items| && items[i] == items[j] == x
  {
    var n := |items| - 1;
    assert items == items[..n] + [items[n]];
    assert x in items[..n] <==> x in multiset(items[..n]);
    if items[n] == x {
      assert x in items[..n];
      i :| 0 <= i < n && items[..n][i] == x;
      j := n;
    } else {
      i, j := TwoPlaces(items[..n], x);
    }
  }

  lemma {:induction false} TwoPlacesCount<T>(items: seq<T>, i: nat, j: nat)
    requires i < j < |items| && items[i] == items[j]
    ensures multiset(items)[items[i]] >= 2
  {
    assert items == items[..j] + items[j..];
    assert items[..j][i] == items[i] && items[j..][0] == items[i];
    assert items[i] in items[..j] && items[i] in items[j..];
    assert multiset(items) == multiset(items[..j]) + multiset(items[j..]);
  }

  lemma {:induction false} SameDistinct<T>(items: seq<Raw<T>>, items': seq<Raw<T>>, sample: T -> Sample)
    requires multiset(items) == multiset(items')
    requires forall x :: x in items ==> x.Record?
    ensures DistinctIds(items, sample) <==> DistinctIds(items', sample)
  {
    assert forall x :: x in items <==> x in multiset(items);
    assert forall x :: x in items' <==> x in multiset(items');
    DistinctByCount(items, sample);
    DistinctByCount(items', sample);
  }

  lemma {:induction false} PermutedMembers<T>(a: seq<T>, b: seq<T>)
    requires multiset(a) == multiset(b)
    ensures |a| == |b| && forall x :: x in a <==> x in b
  {
    assert |multiset(a)| == |a| && |multiset(b)| == |b|;
    assert forall x :: x in a <==> x in multiset(a);
    assert forall x :: x in b <==> x in multiset(b);
  }

  /** Acceptance does not depend on the order of any of the three lists. */
  lemma {:induction false} AcceptanceIgnoresOrder(
    queries: seq<Raw<Query>>, checkpoints: seq<Raw<Checkpoint>>, projections: seq<Raw<Projection>>,
    queries': seq<Raw<Query>>, checkpoints': seq<Raw<Checkpoint>>, projections': seq<Raw<Projection>>,
    w: Window, surfaces: set<string>)
    requires multiset(queries) == multiset(queries')
    requires multiset(checkpoints) == multiset(checkpoints')
    requires multiset(projections) == multiset(projections')
    requires Accepts(queries, checkpoints, projections, w, surfaces)
    ensures Accepts(queries', checkpoints', projections', w, surfaces)
  {
    PermutedMembers(queries, queries');
    PermutedMembers(checkpoints, checkpoints');
    PermutedMembers(projections, projections');
    SameDistinct(queries, queries', QuerySample);
    SameDistinct(checkpoints, checkpoints', CheckpointSample);
    SameDistinct(projections, projections', ProjectionSample);
    forall run ensures HasRun(queries, QuerySample, run) <==> HasRun(queries', QuerySample, run) {}
    forall run ensures HasRun(checkpoints, CheckpointSample, run) <==> HasRun(checkpoints', CheckpointSample, run) {}
    forall run ensures HasRun(projections, ProjectionSample, run) <==> HasRun(projections', ProjectionSample, run) {}
    forall s ensures Reached(projections, s) <==> Reached(projections', s) {}
  }
}
