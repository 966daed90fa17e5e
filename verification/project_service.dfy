/**
 The project service: one stored state with the watchlist, the interaction log and its proposals, the
 users' collections and the lab sessions, and the updaters that commands run on it.  For each part of the
 state, exactly which commands keep what it promises, whatever the other parts are like.
 */
module ProjectService {
  import opened Wrappers

  import C = Collections
  import CS = CollectionSlugs
  import E = Evolution
  import G = LabGraph
  import L = LabWorkflow
  import M = LabModel
  import W = Watchlist

  datatype ProjectState = ProjectState(
    watchlist: seq<W.WatchlistItem>,
    interactions: seq<E.Interaction>,
    proposals: seq<E.Proposal>,
    collections: seq<C.Collection>,
    sessions: seq<M.Session>)

  const EMPTY := ProjectState([], [], [], [], [])

  /** The fixed dataset and the library functions of a deployment. */
  datatype World = World(
    lib: C.Library, data: C.Dataset, solve: M.Session -> M.Solution, projects: set<string>,
    signals: string -> seq<string>, action: seq<string> -> string)

  datatype Command =
    | Watch(newId: string, request: W.CreateRequest)
    | PatchWatch(itemId: string, userId: Option<string>, patch: W.PatchRequest)
    | RefreshWatch(itemId: string, userId: Option<string>)
    | DeleteWatch(itemId: string, userId: Option<string>)
    | Record(event: E.Interaction)
    | Collect(collection: C.Op)
    | Lab(operation: L.Operation)

  /** The updater a command runs inside the lock; `None` when it raises. */
  function Updated(w: World, command: Command, s: ProjectState): Option<ProjectState> {
    match command
    case Watch(id, request) =>
      if request.projectId !in w.projects then None
      else Some(s.(watchlist := W.AddTo(s.watchlist, id, request, w.signals(request.projectId))))
    case PatchWatch(id, user, patch) => Some(s.(watchlist := W.PatchIn(s.watchlist, id, user, patch)))
    case RefreshWatch(id, user) => Some(s.(watchlist := W.RefreshIn(w.projects, s.watchlist, id, user, w.signals, w.action)))
    case DeleteWatch(id, user) => Some(s.(watchlist := W.DeleteFrom(s.watchlist, id, user)))
    case Record(event) =>
      Some(s.(interactions := s.interactions + [event],
              proposals := E.ProposalsAfter(|s.watchlist|, |s.interactions| + 1, s.proposals)))
    case Collect(op) =>
      (match C.Exec(w.lib, w.data, s.collections, op)
       case Err(_) => None
       case Ok(after) => Some(s.(collections := after)))
    case Lab(op) =>
      (match L.Apply(w.lib.hasher, w.solve, op, s.sessions)
       case Err(_) => None
       case Ok(after) => Some(s.(sessions := after)))
  }

  // ---------------------------------------------------------------- what each part promises

  predicate OneProposal(s: ProjectState) {
    E.CountOf(s.proposals, E.CollectionRecommendation) <= 1
  }

  /** The library functions keep their laws, and the shipped collections have slugs of their own. */
  ghost predicate GoodWorld(w: World) {
    C.GoodLibrary(w.lib) && C.DistinctSlugs(C.Shipped(w.data))
  }

  /** A patch revives no archived item beside another of the same watch. */
  ghost predicate WatchSafe(command: Command, s: ProjectState) {
    command.PatchWatch? ==> !W.RevivalClash(s.watchlist, command.itemId, command.userId, command.patch)
  }

  /** A new collection's id is free. */
  predicate CollectSafe(w: World, command: Command, s: ProjectState) {
    command.Collect? ==> !C.TakesId(w.lib, w.data, s.collections, command.collection)
  }

  /** A new lab session's cases read differently. */
  predicate LabSafe(w: World, command: Command) {
    command.Lab? ==> G.GoodStart(w.lib.hasher, command.operation)
  }

  lemma {:induction false} WatchPartIff(w: World, command: Command, s: ProjectState)
    requires W.OneWatch(s.watchlist) && Updated(w, command, s).Some?
    ensures W.OneWatch(Updated(w, command, s).value.watchlist) <==> WatchSafe(command, s)
  {
    match command
    case Watch(id, request) => W.AddKeepsOneWatch(s.watchlist, id, request, w.signals(request.projectId));
    case PatchWatch(id, user, patch) => W.PatchKeepsOneWatchIff(s.watchlist, id, user, patch);
    case RefreshWatch(id, user) => W.RefreshKeepsOneWatch(w.projects, s.watchlist, id, user, w.signals, w.action);
    case DeleteWatch(id, user) => W.DeleteKeepsOneWatch(s.watchlist, id, user);
    case _ =>
  }

  lemma {:induction false} ProposalPart(w: World, command: Command, s: ProjectState)
    requires OneProposal(s) && Updated(w, command, s).Some?
    ensures OneProposal(Updated(w, command, s).value)
  {
    if command.Record? {
      E.ProposalIsMadeOnce(|s.watchlist|, |s.interactions| + 1, s.proposals);
    }
  }

  lemma {:induction false} CollectPartIff(w: World, command: Command, s: ProjectState)
    requires GoodWorld(w) && C.Sound(w.lib, w.data, s.collections) && Updated(w, command, s).Some?
    ensures C.Sound(w.lib, w.data, Updated(w, command, s).value.collections) <==> CollectSafe(w, command, s)
  {
    if command.Collect? {
      C.ExecKeepsSoundIff(w.lib, w.data, s.collections, command.collection);
    } else {
      assert Updated(w, command, s).value.collections == s.collections;
    }
  }

  lemma {:induction false} CountPart(w: World, command: Command, s: ProjectState)
    requires C.CountsRight(s.collections) && Updated(w, command, s).Some?
    ensures C.CountsRight(Updated(w, command, s).value.collections)
  {
    if command.Collect? {
      CS.ExecKeepsCounts(w.lib, w.data, s.collections, command.collection);
    }
  }

  lemma {:induction false} SlugPartIff(w: World, command: Command, s: ProjectState)
    requires C.DistinctSlugs(C.Visible(w.data, s.collections)) && Updated(w, command, s).Some?
    ensures C.DistinctSlugs(C.Visible(w.data, Updated(w, command, s).value.collections)) <==>
            (command.Collect? ==> !CS.RepeatsSlug(w.lib, w.data, s.collections, command.collection))
  {
    if command.Collect? {
      CS.ExecKeepsSlugsIff(w.lib, w.data, s.collections, command.collection);
    } else {
      assert Updated(w, command, s).value.collections == s.collections;
    }
  }

  /** What a lab command leaves is what the lab service leaves. */
  lemma {:induction false} SessionsAfter(w: World, command: Command, s: ProjectState)
    requires Updated(w, command, s).Some?
    ensures Updated(w, command, s).value.sessions ==
              if command.Lab? then L.Exec(w.lib.hasher, w.solve, command.operation, s.sessions) else s.sessions
  {
  }

  lemma {:induction false} LabPartIff(w: World, command: Command, s: ProjectState)
    requires GoodWorld(w) && G.AllSound(w.lib.hasher, s.sessions) && Updated(w, command, s).Some?
    ensures G.AllSound(w.lib.hasher, Updated(w, command, s).value.sessions) <==> LabSafe(w, command)
  {
    SessionsAfter(w, command, s);
    if command.Lab? {
      G.StepKeepsGraphsIff(w.lib.hasher, w.solve, command.operation, s.sessions);
    }
  }

  ghost predicate SessionsEvolve(s: ProjectState, t: ProjectState) {
    |s.sessions| <= |t.sessions| && forall k :: 0 <= k < |s.sessions| ==> L.Evolves(s.sessions[k], t.sessions[k])
  }

  /** Every command keeps sessions consistent and only evolves them. */
  lemma {:induction false} CommandEvolvesSessions(w: World, command: Command, s: ProjectState)
    requires L.AllConsistent(s.sessions) && Updated(w, command, s).Some?
    ensures L.AllConsistent(Updated(w, command, s).value.sessions) && SessionsEvolve(s, Updated(w, command, s).value)
  {
    SessionsAfter(w, command, s);
    if command.Lab? {
      L.ExecStep(w.lib.hasher, w.solve, command.operation, s.sessions);
    }
  }

  // ---------------------------------------------------------------- all parts together

  ghost predicate Good(w: World, s: ProjectState) {
    && W.OneWatch(s.watchlist)
    && OneProposal(s)
    && C.Sound(w.lib, w.data, s.collections)
    && L.AllConsistent(s.sessions)
    && G.AllSound(w.lib.hasher, s.sessions)
  }

  /** What a caller can look at before a command to know that it will do no harm to any part. */
  ghost predicate Safe(w: World, command: Command, s: ProjectState) {
    WatchSafe(command, s) && CollectSafe(w, command, s) && LabSafe(w, command)
  }

  /** A command that goes through keeps the whole invariant exactly when it was safe. */
  lemma {:induction false} CommandKeepsGoodIff(w: World, command: Command, s: ProjectState)
    requires GoodWorld(w) && Good(w, s) && Updated(w, command, s).Some?
    ensures Good(w, Updated(w, command, s).value) <==> Safe(w, command, s)
  {
    WatchPartIff(w, command, s);
    ProposalPart(w, command, s);
    CollectPartIff(w, command, s);
    LabPartIff(w, command, s);
    CommandEvolvesSessions(w, command, s);
  }

  // ---------------------------------------------------------------- a command on a failed read

  /** A command that runs on the empty state loses no session: there is none, or it starts the only one there
      is again, before anything was done in it. */
  predicate Restarts(w: World, command: Command, before: ProjectState) {
    before.sessions == [] ||
    (|before.sessions| == 1 && command.Lab? && command.operation.Start? && !M.Blank(command.operation.problem) &&
     var op := command.operation;
     L.Untouched(before.sessions[0], M.NewSession(w.lib.hasher, op.newId, op.problem, op.hasModuleType, op.cases)))
  }

  /** Exactly then the sessions stored before only evolve. */
  lemma {:induction false} BlindEvolvesIff(w: World, command: Command, before: ProjectState)
    requires Updated(w, command, EMPTY).Some?
    ensures SessionsEvolve(before, Updated(w, command, EMPTY).value) <==> Restarts(w, command, before)
  {
    var after := Updated(w, command, EMPTY).value;
    SessionsAfter(w, command, EMPTY);
    if command.Lab? {
      var op := command.operation;
      G.StepGrows(w.lib.hasher, w.solve, op, []);
      if op.Start? && !M.Blank(op.problem) {
        assert after.sessions == [M.NewSession(w.lib.hasher, op.newId, op.problem, op.hasModuleType, op.cases)];
        if |before.sessions| == 1 {
          L.FreshEvolvesIff(w.lib.hasher, before.sessions[0], op.newId, op.problem, op.hasModuleType, op.cases);
        }
      }
    }
  }
}
