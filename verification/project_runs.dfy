/**
 Many processes running the project service's commands on one state file, in any interleaving, with
 updaters that raise, reads and writes that fail and crashes anywhere.  What each part of the state promises
 holds of everything any `load` returns exactly when the commits that concern that part were safe; a commit
 that harms one part says nothing about the others.
 */
module ProjectRuns {
  import opened Wrappers
  import opened ProjectService
  import opened StateStore

  import C = Collections
  import CS = CollectionSlugs
  import G = LabGraph
  import L = LabWorkflow
  import M = LabModel
  import W = Watchlist

  /** No state file yet, and nobody at work. */
  function Beginning(): Machine<ProjectState> {
    Machine(Absent, NoTemp, None, map[])
  }

  ghost predicate RunsCommand(w: World, op: Op<ProjectState>, command: Command) {
    op.Update? && forall s :: op.apply(s) == Updated(w, command, s)
  }

  ghost predicate IsCommand(w: World, op: Op<ProjectState>) {
    exists command :: RunsCommand(w, op, command)
  }

  /** A run from the missing state file in which every operation begun is the update of some command. */
  ghost predicate CommandRun(w: World, labels: seq<Label<ProjectState>>) {
    && Run(EMPTY, Beginning(), labels).Some?
    && forall i :: 0 <= i < |labels| && labels[i].Begin? ==> IsCommand(w, labels[i].op)
  }

  /** What a load after these steps returns. */
  function At(labels: seq<Label<ProjectState>>): Option<ProjectState> {
    match Run(EMPTY, Beginning(), labels)
    case None => None
    case Some(m) => Value(EMPTY, m.doc)
  }

  function Done(labels: seq<Label<ProjectState>>): seq<Commit<ProjectState>> {
    if Run(EMPTY, Beginning(), labels).Some? then Commits(EMPTY, Beginning(), labels) else []
  }

  /** What a commit saw. */
  function SeenBy(c: Commit<ProjectState>, front: seq<Commit<ProjectState>>): Option<ProjectState> {
    Seen(EMPTY, Fold(EMPTY, Some(EMPTY), front), c)
  }

  lemma {:induction false} CommandRunPrefix(w: World, labels: seq<Label<ProjectState>>)
    requires CommandRun(w, labels) && labels != []
    ensures CommandRun(w, labels[..|labels| - 1])
  {
  }

  lemma {:induction false} CommandRunUpTo(w: World, labels: seq<Label<ProjectState>>, i: nat)
    requires CommandRun(w, labels) && i <= |labels|
    ensures CommandRun(w, labels[..i]) && Done(labels[..i]) <= Done(labels)
  {
    PrefixRuns(EMPTY, Beginning(), labels, i);
  }

  /** What the last step of a run did: it left the stored value alone, or it was the rename of a command
      that was applied to what it had seen. */
  lemma {:induction false} LastStep(w: World, labels: seq<Label<ProjectState>>)
    requires CommandRun(w, labels) && labels != []
    ensures
      var front := labels[..|labels| - 1];
      && At(front) == Fold(EMPTY, Some(EMPTY), Done(front))
      && if Done(labels) == Done(front) then At(labels) == At(front)
         else |Done(labels)| == |Done(front)| + 1 && Done(labels)[..|Done(front)|] == Done(front)
              && var c := Done(labels)[|Done(front)|];
              IsCommand(w, c.op) && At(labels).Some? && SeenBy(c, Done(front)).Some?
              && At(labels) == ApplyOp(c.op, SeenBy(c, Done(front)))
  {
    var front, last := labels[..|labels| - 1], labels[|labels| - 1];
    CommandRunPrefix(w, labels);
    StoredIsFoldOfCommits(EMPTY, Beginning(), front);
    RunKeepsInv(EMPTY, Beginning(), front);
    var before := Run(EMPTY, Beginning(), front).value;
    StepAppliesCommit(EMPTY, before, last);
    OpsWereBegun(EMPTY, Beginning(), front, op => IsCommand(w, op));
    assert PhaseInv(EMPTY, before, PhaseOf(before, last.p));
  }

  // ---------------------------------------------------------------- one part over every run

  datatype Part = Watches | Proposals | ItemCounts | ShownSlugs | UserCollections | Workflow | Graphs | Everything

  ghost predicate Holds(w: World, part: Part, s: ProjectState) {
    match part
    case Watches => W.OneWatch(s.watchlist)
    case Proposals => OneProposal(s)
    case ItemCounts => C.CountsRight(s.collections)
    case ShownSlugs => C.DistinctSlugs(C.Visible(w.data, s.collections))
    case UserCollections => C.Sound(w.lib, w.data, s.collections)
    case Workflow => L.AllConsistent(s.sessions)
    case Graphs => G.AllSound(w.lib.hasher, s.sessions)
    case Everything => Good(w, s)
  }

  ghost predicate SafeFor(w: World, part: Part, command: Command, s: ProjectState) {
    match part
    case Watches => WatchSafe(command, s)
    case Proposals => true
    case ItemCounts => true
    case ShownSlugs => command.Collect? ==> !CS.RepeatsSlug(w.lib, w.data, s.collections, command.collection)
    case UserCollections => CollectSafe(w, command, s)
    case Workflow => true
    case Graphs => LabSafe(w, command)
    case Everything => Safe(w, command, s)
  }

  /** What the part needs of the deployment. */
  ghost predicate Ready(w: World, part: Part) {
    match part
    case ShownSlugs => C.DistinctSlugs(C.Shipped(w.data))
    case UserCollections => GoodWorld(w)
    case Graphs => GoodWorld(w)
    case Everything => GoodWorld(w)
    case _ => true
  }

  lemma {:induction false} CommandKeepsPartIff(w: World, part: Part, command: Command, s: ProjectState)
    requires Ready(w, part)
    requires Holds(w, part, s) && Updated(w, command, s).Some?
    ensures Holds(w, part, Updated(w, command, s).value) <==> SafeFor(w, part, command, s)
  {
    match part
    case Watches => WatchPartIff(w, command, s);
    case Proposals => ProposalPart(w, command, s);
    case ItemCounts => CountPart(w, command, s);
    case ShownSlugs => SlugPartIff(w, command, s);
    case UserCollections => CollectPartIff(w, command, s);
    case Workflow => CommandEvolvesSessions(w, command, s);
    case Graphs => LabPartIff(w, command, s);
    case Everything => CommandKeepsGoodIff(w, command, s);
  }

  /** What a load after these steps returns has the part in order, and so had what every load before
      returned. */
  ghost predicate EveryLoad(w: World, part: Part, labels: seq<Label<ProjectState>>) {
    && (At(labels).Some? ==> Holds(w, part, At(labels).value))
    && (labels == [] || EveryLoad(w, part, labels[..|labels| - 1]))
  }

  /** The committed operation was safe for the part on the state it was applied to. */
  ghost predicate SafeOn(w: World, part: Part, op: Op<ProjectState>, seen: Option<ProjectState>) {
    forall command :: seen.Some? && RunsCommand(w, op, command) ==> SafeFor(w, part, command, seen.value)
  }

  /** Every commit was safe for the part on the state it saw. */
  ghost predicate EveryCommit(w: World, part: Part, commits: seq<Commit<ProjectState>>) {
    commits == [] ||
    var front, last := commits[..|commits| - 1], commits[|commits| - 1];
    EveryCommit(w, part, front) && SafeOn(w, part, last.op, SeenBy(last, front))
  }

  lemma {:induction false} CommitKeepsIff(w: World, part: Part, op: Op<ProjectState>, seen: ProjectState, next: ProjectState)
    requires Ready(w, part)
    requires Holds(w, part, seen) && IsCommand(w, op) && ApplyOp(op, Some(seen)) == Some(next)
    ensures Holds(w, part, next) <==> SafeOn(w, part, op, Some(seen))
  {
    forall command | RunsCommand(w, op, command)
      ensures Holds(w, part, next) <==> SafeFor(w, part, command, seen)
    {
      assert op.apply(seen) == Updated(w, command, seen);
      CommandKeepsPartIff(w, part, command, seen);
    }
  }

  lemma {:induction false} EmptyHolds(w: World, part: Part)
    requires Ready(w, part)
    ensures Holds(w, part, EMPTY)
  {
    C.NothingUserMadeIsSound(w.lib, w.data);
    assert C.Visible(w.data, []) == C.Shipped(w.data);
  }

  /** From a missing state file, in any interleaving of any processes running commands, with updaters that
      raise, reads and writes that fail and crashes anywhere: a part of the state is in order at every load
      exactly when every commit was safe for that part on the state it saw. */
  lemma {:induction false} EveryLoadIff(w: World, part: Part, labels: seq<Label<ProjectState>>)
    requires CommandRun(w, labels) && Ready(w, part)
    ensures EveryLoad(w, part, labels) <==> EveryCommit(w, part, Done(labels))
  {
    EmptyHolds(w, part);
    if labels != [] {
      var front := labels[..|labels| - 1];
      CommandRunPrefix(w, labels);
      EveryLoadIff(w, part, front);
      LastStep(w, labels);
      if Done(labels) != Done(front) && EveryLoad(w, part, front) {
        var c := Done(labels)[|Done(front)|];
        CommitKeepsIff(w, part, c.op, SeenBy(c, Done(front)).value, At(labels).value);
      }
    }
  }

  lemma {:induction false} NothingCanHarm(w: World, part: Part, commits: seq<Commit<ProjectState>>)
    requires part.Proposals? || part.Workflow? || part.ItemCounts?
    ensures EveryCommit(w, part, commits)
  {
    if commits != [] {
      NothingCanHarm(w, part, commits[..|commits| - 1]);
    }
  }

  /** Whatever commands race, and whatever harm they do elsewhere: no load ever returns two recommendation
      proposals. */
  lemma {:induction false} AtMostOneProposal(w: World, labels: seq<Label<ProjectState>>)
    requires CommandRun(w, labels)
    ensures EveryLoad(w, Proposals, labels)
  {
    EveryLoadIff(w, Proposals, labels);
    NothingCanHarm(w, Proposals, Done(labels));
  }

  /** Nor a session whose workflow fields are not the derived ones. */
  lemma {:induction false} WorkflowIsDerived(w: World, labels: seq<Label<ProjectState>>)
    requires CommandRun(w, labels)
    ensures EveryLoad(w, Workflow, labels)
  {
    EveryLoadIff(w, Workflow, labels);
    NothingCanHarm(w, Workflow, Done(labels));
  }

  /** A committed patch that revived an archived item beside another of the same watch. */
  ghost predicate RevivesOn(w: World, op: Op<ProjectState>, seen: Option<ProjectState>) {
    exists id, user, patch :: seen.Some? && RunsCommand(w, op, PatchWatch(id, user, patch))
                              && W.RevivalClash(seen.value.watchlist, id, user, patch)
  }

  ghost predicate NoCommitRevives(w: World, commits: seq<Commit<ProjectState>>) {
    commits == [] ||
    var front, last := commits[..|commits| - 1], commits[|commits| - 1];
    NoCommitRevives(w, front) && !RevivesOn(w, last.op, SeenBy(last, front))
  }

  lemma {:induction false} RevivesIff(w: World, op: Op<ProjectState>, seen: Option<ProjectState>)
    ensures SafeOn(w, Watches, op, seen) <==> !RevivesOn(w, op, seen)
  {
    forall command | seen.Some? && RunsCommand(w, op, command) && !RevivesOn(w, op, seen)
      ensures SafeFor(w, Watches, command, seen.value)
    {
      if command.PatchWatch? {
        assert command == PatchWatch(command.itemId, command.userId, command.patch);
      }
    }
  }

  lemma {:induction false} RevivalIsUnsafe(w: World, commits: seq<Commit<ProjectState>>)
    ensures EveryCommit(w, Watches, commits) <==> NoCommitRevives(w, commits)
  {
    if commits != [] {
      var front, last := commits[..|commits| - 1], commits[|commits| - 1];
      RevivalIsUnsafe(w, front);
      RevivesIff(w, last.op, SeenBy(last, front));
    }
  }

  /** Every load returns at most one live item per owner and project exactly when no committed patch revived
      an archived item beside another of the same watch. */
  lemma {:induction false} OneWatchIff(w: World, labels: seq<Label<ProjectState>>)
    requires CommandRun(w, labels)
    ensures EveryLoad(w, Watches, labels) <==> NoCommitRevives(w, Done(labels))
  {
    EveryLoadIff(w, Watches, labels);
    RevivalIsUnsafe(w, Done(labels));
  }

  /** Nor a collection whose count is not the number of its items. */
  lemma {:induction false} CountsAreRight(w: World, labels: seq<Label<ProjectState>>)
    requires CommandRun(w, labels)
    ensures EveryLoad(w, ItemCounts, labels)
  {
    EveryLoadIff(w, ItemCounts, labels);
    NothingCanHarm(w, ItemCounts, Done(labels));
  }

  lemma {:induction false} FirstLoadShowsShipped(w: World, labels: seq<Label<ProjectState>>)
    requires CommandRun(w, labels) && EveryLoad(w, ShownSlugs, labels)
    ensures C.DistinctSlugs(C.Shipped(w.data))
  {
    if labels == [] {
      assert C.Visible(w.data, []) == C.Shipped(w.data);
    } else {
      CommandRunPrefix(w, labels);
      FirstLoadShowsShipped(w, labels[..|labels| - 1]);
    }
  }

  /** Every load shows collections under pairwise distinct slugs exactly when the shipped ones are and no
      commit added an item to an entry whose slug was shown under another id. */
  lemma {:induction false} LoadsShowDistinctSlugsIff(w: World, labels: seq<Label<ProjectState>>)
    requires CommandRun(w, labels)
    ensures EveryLoad(w, ShownSlugs, labels) <==>
            C.DistinctSlugs(C.Shipped(w.data)) && EveryCommit(w, ShownSlugs, Done(labels))
  {
    if C.DistinctSlugs(C.Shipped(w.data)) {
      EveryLoadIff(w, ShownSlugs, labels);
    } else if EveryLoad(w, ShownSlugs, labels) {
      FirstLoadShowsShipped(w, labels);
    }
  }

  lemma {:induction false} GoodIsItsParts(w: World, s: ProjectState)
    ensures Holds(w, Everything, s) <==>
            && Holds(w, Watches, s) && Holds(w, Proposals, s) && Holds(w, UserCollections, s)
            && Holds(w, Workflow, s) && Holds(w, Graphs, s)
  {
  }

  /** All parts are in order at every load exactly when each of them is. */
  lemma {:induction false} EveryLoadIsItsParts(w: World, labels: seq<Label<ProjectState>>)
    ensures EveryLoad(w, Everything, labels) <==>
            && EveryLoad(w, Watches, labels) && EveryLoad(w, Proposals, labels) && EveryLoad(w, UserCollections, labels)
            && EveryLoad(w, Workflow, labels) && EveryLoad(w, Graphs, labels)
  {
    if At(labels).Some? { GoodIsItsParts(w, At(labels).value); }
    if labels != [] {
      EveryLoadIsItsParts(w, labels[..|labels| - 1]);
    }
  }

  /** So every load has all of it exactly when every commit was safe for the watchlist, for the collections
      and for the lab graphs. */
  lemma {:induction false} EveryLoadIsGoodIff(w: World, labels: seq<Label<ProjectState>>)
    requires GoodWorld(w) && CommandRun(w, labels)
    ensures EveryLoad(w, Everything, labels) <==>
            && NoCommitRevives(w, Done(labels))
            && EveryCommit(w, UserCollections, Done(labels))
            && EveryCommit(w, Graphs, Done(labels))
  {
    EveryLoadIsItsParts(w, labels);
    AtMostOneProposal(w, labels);
    WorkflowIsDerived(w, labels);
    OneWatchIff(w, labels);
    EveryLoadIff(w, UserCollections, labels);
    EveryLoadIff(w, Graphs, labels);
  }

  // ---------------------------------------------------------------- lab sessions between two loads

  lemma {:induction false} EvolveTransitive(s: ProjectState, t: ProjectState, u: ProjectState)
    requires SessionsEvolve(s, t) && SessionsEvolve(t, u)
    ensures SessionsEvolve(s, u)
  {
    forall k | 0 <= k < |s.sessions| ensures L.Evolves(s.sessions[k], u.sessions[k]) {
      L.EvolvesTransitive(s.sessions[k], t.sessions[k], u.sessions[k]);
    }
  }

  /** What is stored can be read and has consistent sessions. */
  lemma {:induction false} StoredIsConsistent(w: World, labels: seq<Label<ProjectState>>)
    requires CommandRun(w, labels)
    ensures At(labels).Some? && L.AllConsistent(At(labels).value.sessions)
  {
    WorkflowIsDerived(w, labels);
    assert Beginning().doc == Absent && labels[..0] == [];
    PrefixRuns(EMPTY, Beginning(), labels, 0);
    StaysReadable(EMPTY, Beginning(), labels, 0);
  }

  /** A run's last commit, with the command it ran. */
  lemma {:induction false} LastCommand(w: World, labels: seq<Label<ProjectState>>) returns (c: Commit<ProjectState>, command: Command)
    requires CommandRun(w, labels) && labels != [] && Done(labels) != Done(labels[..|labels| - 1])
    ensures
      var front := labels[..|labels| - 1];
      && Done(labels) == Done(front) + [c] && RunsCommand(w, c.op, command)
      && At(front).Some? && At(front) == Fold(EMPTY, Some(EMPTY), Done(front)) && L.AllConsistent(At(front).value.sessions)
      && var seen := if c.blind then EMPTY else At(front).value;
      Updated(w, command, seen).Some? && At(labels) == Updated(w, command, seen)
  {
    var front := labels[..|labels| - 1];
    CommandRunPrefix(w, labels);
    StoredIsConsistent(w, front);
    LastStep(w, labels);
    c := Done(labels)[|Done(front)|];
    command :| RunsCommand(w, c.op, command);
    var seen := if c.blind then EMPTY else At(front).value;
    assert c.op.apply(seen) == Updated(w, command, seen);
  }

  /** From the load at `i` on, every step only evolves the sessions stored before it. */
  ghost predicate EvolvesFrom(labels: seq<Label<ProjectState>>, i: nat)
    requires i <= |labels|
  {
    i == |labels| ||
    var front := labels[..|labels| - 1];
    EvolvesFrom(front, i) && At(front).Some? && At(labels).Some? && SessionsEvolve(At(front).value, At(labels).value)
  }

  /** The commit's command loses no session of what was stored. */
  ghost predicate RestartsOn(w: World, op: Op<ProjectState>, before: Option<ProjectState>) {
    forall command :: before.Some? && RunsCommand(w, op, command) ==> Restarts(w, command, before.value)
  }

  /** Every commit on a failed read after the first `n` commits loses no session. */
  ghost predicate BlindRestarts(w: World, commits: seq<Commit<ProjectState>>, n: nat) {
    |commits| <= n ||
    var front, last := commits[..|commits| - 1], commits[|commits| - 1];
    BlindRestarts(w, front, n) && (last.blind ==> RestartsOn(w, last.op, Fold(EMPTY, Some(EMPTY), front)))
  }

  lemma {:induction false} CommitEvolvesIff(w: World, labels: seq<Label<ProjectState>>, c: Commit<ProjectState>, command: Command)
    requires CommandRun(w, labels) && labels != []
    requires
      var front := labels[..|labels| - 1];
      && RunsCommand(w, c.op, command) && At(front).Some? && L.AllConsistent(At(front).value.sessions)
      && var seen := if c.blind then EMPTY else At(front).value;
      Updated(w, command, seen).Some? && At(labels) == Updated(w, command, seen)
    ensures
      var before := At(labels[..|labels| - 1]);
      SessionsEvolve(before.value, At(labels).value) <==> (c.blind ==> RestartsOn(w, c.op, before))
  {
    var before := At(labels[..|labels| - 1]).value;
    if c.blind {
      forall other | RunsCommand(w, c.op, other)
        ensures Restarts(w, other, before) <==> SessionsEvolve(before, At(labels).value)
      {
        assert c.op.apply(EMPTY) == Updated(w, other, EMPTY) == Updated(w, command, EMPTY);
        BlindEvolvesIff(w, other, before);
      }
    } else {
      CommandEvolvesSessions(w, command, before);
    }
  }

  /** From any load on, in any interleaving, every lab session only evolves from each load to the next: it
      keeps its place, a solution never changes, it is never active again once it was closed, and what was
      answered stays answered.  That is so exactly when every commit on a failed read found no session, or
      started the only one again before anything was done in it. */
  lemma {:induction false} SessionsEvolveIff(w: World, labels: seq<Label<ProjectState>>, i: nat)
    requires CommandRun(w, labels) && i <= |labels|
    ensures EvolvesFrom(labels, i) <==> BlindRestarts(w, Done(labels), |Done(labels[..i])|)
  {
    if i == |labels| {
      assert labels[..i] == labels;
    } else {
      var front := labels[..|labels| - 1];
      assert front[..i] == labels[..i];
      CommandRunPrefix(w, labels);
      SessionsEvolveIff(w, front, i);
      CommandRunUpTo(w, front, i);
      StoredIsConsistent(w, front);
      LastStep(w, labels);
      if Done(labels) != Done(front) {
        var c, command := LastCommand(w, labels);
        CommitEvolvesIff(w, labels, c, command);
        assert Done(labels)[..|Done(labels)| - 1] == Done(front);
      }
    }
  }

  /** And then from the load at `i` to the last one. */
  lemma {:induction false} EvolvedSince(labels: seq<Label<ProjectState>>, i: nat)
    requires i <= |labels| && At(labels[..i]).Some? && EvolvesFrom(labels, i)
    ensures At(labels).Some? && SessionsEvolve(At(labels[..i]).value, At(labels).value)
  {
    if i == |labels| {
      assert labels[..i] == labels;
    } else {
      var front := labels[..|labels| - 1];
      assert front[..i] == labels[..i];
      EvolvedSince(front, i);
      EvolveTransitive(At(labels[..i]).value, At(front).value, At(labels).value);
    }
  }

  /** No commit after the first `n` ran on a failed read. */
  predicate SightedFrom(commits: seq<Commit<ProjectState>>, n: nat) {
    forall c :: n <= c < |commits| ==> !commits[c].blind
  }

  lemma {:induction false} SightedRestarts(w: World, commits: seq<Commit<ProjectState>>, n: nat)
    requires SightedFrom(commits, n)
    ensures BlindRestarts(w, commits, n)
  {
    if n < |commits| {
      SightedRestarts(w, commits[..|commits| - 1], n);
    }
  }

  /** In particular between any two loads without a commit on a failed read in between. */
  lemma {:induction false} SessionsEvolveBetweenLoads(w: World, labels: seq<Label<ProjectState>>, i: nat)
    requires CommandRun(w, labels) && i <= |labels| && SightedFrom(Done(labels), |Done(labels[..i])|)
    ensures At(labels[..i]).Some? && At(labels).Some? && SessionsEvolve(At(labels[..i]).value, At(labels).value)
  {
    CommandRunUpTo(w, labels, i);
    StoredIsConsistent(w, labels[..i]);
    SightedRestarts(w, Done(labels), |Done(labels[..i])|);
    SessionsEvolveIff(w, labels, i);
    EvolvedSince(labels, i);
  }

  /** So of racing `generate` calls at most one goes through: once a load has shown a solution of a session,
      no commit that can read the file, whoever raced for it, generates for that id again. */
  lemma {:induction false} SolvedIsNotGeneratedAgain(w: World, labels: seq<Label<ProjectState>>, i: nat, k: nat, n: nat)
    requires CommandRun(w, labels) && i <= |labels| && SightedFrom(Done(labels), |Done(labels[..i])|)
    requires At(labels[..i]).Some? && k < |At(labels[..i]).value.sessions| && M.HasSolution(At(labels[..i]).value.sessions[k])
    requires |Done(labels[..i])| <= n < |Done(labels)|
    ensures !RunsCommand(w, Done(labels)[n].op, Lab(L.Generate(At(labels[..i]).value.sessions[k].id)))
  {
    WholePrefix(labels);
    if i < |labels| {
      var front := labels[..|labels| - 1];
      assert front[..i] == labels[..i];
      CommandRunPrefix(w, labels);
      CommandRunUpTo(w, front, i);
      LastStep(w, labels);
      assert SightedFrom(Done(front), |Done(labels[..i])|);
      if n < |Done(front)| {
        SolvedIsNotGeneratedAgain(w, front, i, k, n);
      } else {
        SessionsEvolveBetweenLoads(w, front, i);
        LastIsNotGenerate(w, labels, At(labels[..i]).value, k);
      }
    }
  }

  lemma {:induction false} LastIsNotGenerate(w: World, labels: seq<Label<ProjectState>>, early: ProjectState, k: nat)
    requires CommandRun(w, labels) && labels != [] && Done(labels) != Done(labels[..|labels| - 1])
    requires Done(labels) != [] && !Done(labels)[|Done(labels)| - 1].blind
    requires k < |early.sessions| && M.HasSolution(early.sessions[k])
    requires At(labels[..|labels| - 1]).Some? && SessionsEvolve(early, At(labels[..|labels| - 1]).value)
    ensures !RunsCommand(w, Done(labels)[|Done(labels)| - 1].op, Lab(L.Generate(early.sessions[k].id)))
  {
    var c, _ := LastCommand(w, labels);
    var seen := At(labels[..|labels| - 1]).value;
    assert L.Evolves(early.sessions[k], seen.sessions[k]);
    L.SecondGenerateIsRefused(w.lib.hasher, w.solve, early.sessions[k].id, seen.sessions, k);
    assert Updated(w, Lab(L.Generate(early.sessions[k].id)), seen) == None;
    assert c.op.apply(seen).Some?;
  }

  lemma {:induction false} WholePrefix(labels: seq<Label<ProjectState>>)
    ensures labels[..|labels|] == labels
  {
  }

  // ---------------------------------------------------------------- each lab session's graph

  /** A session whose graph is sound stays sound, whatever the other sessions are like. */
  lemma {:induction false} SoundSessionStays(w: World, labels: seq<Label<ProjectState>>, i: nat, k: nat)
    requires GoodWorld(w) && CommandRun(w, labels) && i <= |labels| && SightedFrom(Done(labels), |Done(labels[..i])|)
    requires At(labels[..i]).Some? && k < |At(labels[..i]).value.sessions|
    requires G.GraphSound(w.lib.hasher, At(labels[..i]).value.sessions[k])
    ensures At(labels).Some? && k < |At(labels).value.sessions| && G.GraphSound(w.lib.hasher, At(labels).value.sessions[k])
  {
    if i == |labels| {
      WholePrefix(labels);
    } else {
      var front := labels[..|labels| - 1];
      assert front[..i] == labels[..i];
      CommandRunPrefix(w, labels);
      CommandRunUpTo(w, front, i);
      LastStep(w, labels);
      assert SightedFrom(Done(front), |Done(labels[..i])|);
      SoundSessionStays(w, front, i, k);
      if Done(labels) != Done(front) {
        var c, command := LastCommand(w, labels);
        SessionsAfter(w, command, At(front).value);
        if command.Lab? {
          G.StepKeepsSession(w.lib.hasher, w.solve, command.operation, At(front).value.sessions, k);
        }
      }
    }
  }

  /** The last step of these started session `k` with this operation. */
  ghost predicate Starts(w: World, labels: seq<Label<ProjectState>>, op: L.Operation, k: nat) {
    && labels != [] && op.Start? && Done(labels) != [] && Done(labels) != Done(labels[..|labels| - 1])
    && var c := Done(labels)[|Done(labels)| - 1];
    && RunsCommand(w, c.op, Lab(op))
    && At(labels[..|labels| - 1]).Some?
    && k == if c.blind then 0 else |At(labels[..|labels| - 1]).value.sessions|
  }

  lemma {:induction false} SameUpdate(w: World, op: Op<ProjectState>, a: Command, b: Command, s: ProjectState)
    requires RunsCommand(w, op, a) && RunsCommand(w, op, b)
    ensures Updated(w, a, s) == Updated(w, b, s)
  {
    assert op.apply(s) == Updated(w, a, s);
  }

  lemma {:induction false} StartAppends(w: World, op: L.Operation, s: ProjectState)
    requires op.Start? && Updated(w, Lab(op), s).Some?
    ensures Updated(w, Lab(op), s).value.sessions ==
              s.sessions + [M.NewSession(w.lib.hasher, op.newId, op.problem, op.hasModuleType, op.cases)]
  {
  }

  lemma {:induction false} StartedSession(w: World, labels: seq<Label<ProjectState>>, op: L.Operation, k: nat)
    requires CommandRun(w, labels) && Starts(w, labels, op, k)
    ensures At(labels).Some? && k < |At(labels).value.sessions|
    ensures At(labels).value.sessions[k] == M.NewSession(w.lib.hasher, op.newId, op.problem, op.hasModuleType, op.cases)
  {
    var c, command := LastCommand(w, labels);
    var seen := if c.blind then EMPTY else At(labels[..|labels| - 1]).value;
    SameUpdate(w, c.op, Lab(op), command, seen);
    StartAppends(w, op, seen);
  }

  lemma {:induction false} StartedSoundIff(w: World, labels: seq<Label<ProjectState>>, op: L.Operation, k: nat)
    requires GoodWorld(w) && CommandRun(w, labels) && Starts(w, labels, op, k)
    ensures At(labels).Some? && k < |At(labels).value.sessions|
    ensures G.GraphSound(w.lib.hasher, At(labels).value.sessions[k]) <==>
              G.GoodCases(w.lib.hasher, op.newId, op.hasModuleType, op.cases)
  {
    StartedSession(w, labels, op, k);
    G.FreshSessionSoundIff(w.lib.hasher, op.newId, op.problem, op.hasModuleType, op.cases);
  }

  /** In any interleaving a session's graph is sound at every load from its start on, until a commit on a
      failed read drops it, exactly when it was started on good cases, whatever the other sessions were
      started on.  The starting commit may itself have run on a failed read: the session is then the first of
      a new list. */
  lemma {:induction false} SessionSoundIff(w: World, labels: seq<Label<ProjectState>>, i: nat, op: L.Operation, k: nat)
    requires GoodWorld(w) && CommandRun(w, labels) && StartedAt(w, labels, i, op, k)
    ensures
      (forall j :: i <= j <= |labels| ==>
         At(labels[..j]).Some? && k < |At(labels[..j]).value.sessions|
         && G.GraphSound(w.lib.hasher, At(labels[..j]).value.sessions[k])) <==>
      G.GoodCases(w.lib.hasher, op.newId, op.hasModuleType, op.cases)
  {
    CommandRunUpTo(w, labels, i);
    StartedSoundIff(w, labels[..i], op, k);
    if G.GoodCases(w.lib.hasher, op.newId, op.hasModuleType, op.cases) {
      forall j | i <= j <= |labels|
        ensures At(labels[..j]).Some? && k < |At(labels[..j]).value.sessions|
        ensures G.GraphSound(w.lib.hasher, At(labels[..j]).value.sessions[k])
      {
        CommandRunUpTo(w, labels, j);
        assert labels[..j][..i] == labels[..i];
        assert SightedFrom(Done(labels[..j]), |Done(labels[..i])|);
        SoundSessionStays(w, labels[..j], i, k);
      }
    }
  }

  /** A commit on a failed read leaves no session but the one it may start. */
  lemma {:induction false} BlindRebuilds(w: World, labels: seq<Label<ProjectState>>, c: Commit<ProjectState>, command: Command)
    requires CommandRun(w, labels) && labels != [] && c.blind && RunsCommand(w, c.op, command)
    requires Done(labels) == Done(labels[..|labels| - 1]) + [c] && At(labels[..|labels| - 1]).Some?
    requires Updated(w, command, EMPTY).Some? && At(labels) == Updated(w, command, EMPTY)
    ensures At(labels).value.sessions == [] ||
            (|At(labels).value.sessions| == 1 && command.Lab? && Starts(w, labels, command.operation, 0))
  {
    SessionsAfter(w, command, EMPTY);
    if command.Lab? {
      G.StepGrows(w.lib.hasher, w.solve, command.operation, []);
    }
  }

  /** A commit on a good read starts the session it adds. */
  lemma {:induction false} SightedGrows(w: World, labels: seq<Label<ProjectState>>, c: Commit<ProjectState>, command: Command, k: nat)
    requires CommandRun(w, labels) && labels != [] && !c.blind && RunsCommand(w, c.op, command)
    requires Done(labels) == Done(labels[..|labels| - 1]) + [c] && At(labels[..|labels| - 1]).Some?
    requires
      var before := At(labels[..|labels| - 1]).value;
      Updated(w, command, before).Some? && At(labels) == Updated(w, command, before) && |before.sessions| <= k
    requires k < |At(labels).value.sessions|
    ensures command.Lab? && Starts(w, labels, command.operation, k)
  {
    var before := At(labels[..|labels| - 1]).value;
    SessionsAfter(w, command, before);
    if command.Lab? {
      G.StepGrows(w.lib.hasher, w.solve, command.operation, before.sessions);
    }
  }

  /** The `i`-th step of the run started session `k`, with no commit on a failed read since. */
  ghost predicate StartedAt(w: World, labels: seq<Label<ProjectState>>, i: nat, op: L.Operation, k: nat) {
    i <= |labels| && Starts(w, labels[..i], op, k) && SightedFrom(Done(labels), |Done(labels[..i])|)
  }

  lemma {:induction false} StartedByLast(w: World, labels: seq<Label<ProjectState>>, k: nat) returns (op: L.Operation)
    requires CommandRun(w, labels) && labels != [] && Done(labels) != Done(labels[..|labels| - 1])
    requires At(labels).Some? && k < |At(labels).value.sessions|
    requires Done(labels) != [] && At(labels[..|labels| - 1]).Some?
    requires Done(labels)[|Done(labels)| - 1].blind || |At(labels[..|labels| - 1]).value.sessions| <= k
    ensures StartedAt(w, labels, |labels|, op, k)
  {
    var c, command := LastCommand(w, labels);
    if c.blind {
      BlindRebuilds(w, labels, c, command);
    } else {
      SightedGrows(w, labels, c, command, k);
    }
    op := command.operation;
    WholePrefix(labels);
  }

  lemma {:induction false} StartedBefore(w: World, labels: seq<Label<ProjectState>>, i: nat, op: L.Operation, k: nat)
    requires CommandRun(w, labels) && labels != [] && StartedAt(w, labels[..|labels| - 1], i, op, k)
    requires Done(labels) == Done(labels[..|labels| - 1]) || (Done(labels) != [] && !Done(labels)[|Done(labels)| - 1].blind)
    ensures StartedAt(w, labels, i, op, k)
  {
    assert labels[..|labels| - 1][..i] == labels[..i];
    CommandRunPrefix(w, labels);
    DoneGrows(w, labels);
    SightedStays(Done(labels[..|labels| - 1]), Done(labels), |Done(labels[..i])|);
  }

  lemma {:induction false} DoneGrows(w: World, labels: seq<Label<ProjectState>>)
    requires CommandRun(w, labels) && labels != []
    ensures
      var front := labels[..|labels| - 1];
      Done(labels) == Done(front) || (|Done(labels)| == |Done(front)| + 1 && Done(labels)[..|Done(front)|] == Done(front))
  {
    LastStep(w, labels);
  }

  lemma {:induction false} SightedStays(commits: seq<Commit<ProjectState>>, commits': seq<Commit<ProjectState>>, n: nat)
    requires SightedFrom(commits, n)
    requires commits' == commits ||
             (|commits'| == |commits| + 1 && commits'[..|commits|] == commits && !commits'[|commits|].blind)
    ensures SightedFrom(commits', n)
  {
    if commits' != commits {
      assert forall c :: 0 <= c < |commits| ==> commits'[c] == commits'[..|commits|][c] == commits[c];
    }
  }

  /** Every session any load returns, before or after commits on failed reads, was started by some commit of
      the run with no commit on a failed read since. */
  lemma {:induction false} EverySessionHasItsStart(w: World, labels: seq<Label<ProjectState>>, k: nat) returns (i: nat, op: L.Operation)
    requires CommandRun(w, labels) && At(labels).Some? && k < |At(labels).value.sessions|
    ensures StartedAt(w, labels, i, op, k)
  {
    assert labels != [];
    var front := labels[..|labels| - 1];
    CommandRunPrefix(w, labels);
    StoredIsConsistent(w, front);
    LastStep(w, labels);
    if Done(labels) == Done(front) || (!Done(labels)[|Done(front)|].blind && k < |At(front).value.sessions|) {
      i, op := EverySessionHasItsStart(w, front, k);
      StartedBefore(w, labels, i, op, k);
    } else {
      i := |labels|;
      op := StartedByLast(w, labels, k);
    }
  }

  /** So what a load returns of any session is sound whenever that session was started on good cases, however
      many commits ran on failed reads. */
  lemma {:induction false} LoadedSessionSound(w: World, labels: seq<Label<ProjectState>>, k: nat) returns (i: nat, op: L.Operation)
    requires GoodWorld(w) && CommandRun(w, labels) && At(labels).Some? && k < |At(labels).value.sessions|
    ensures StartedAt(w, labels, i, op, k)
    ensures G.GoodCases(w.lib.hasher, op.newId, op.hasModuleType, op.cases) ==>
              G.GraphSound(w.lib.hasher, At(labels).value.sessions[k])
  {
    i, op := EverySessionHasItsStart(w, labels, k);
    SessionSoundIff(w, labels, i, op, k);
    WholePrefix(labels);
    assert labels[..|labels|] == labels;
  }
}
