/**
 The lab service: operations that rebuild the stored session list in a loop inside one locked update,
 and what every run of them keeps.
 */
module LabWorkflow {
  import opened Wrappers
  import opened LabModel
  import opened StableIds
  import opened Texts

  datatype RawAnswer = Text(text: string) | NotText

  datatype SolutionResult = SolutionResult(session: Session, solution: Solution)

  datatype LabError =
    | ProblemRequired
    | AnswerInvalid
    | QuestionNotFound
    | NotReady(unanswered: seq<string>)
    | SolutionMissing

  datatype Operation =
    | Start(newId: string, problem: string, hasModuleType: bool, cases: seq<string>)
    | Answer(id: string, question: string, raw: RawAnswer)
    | Generate(id: string)
    | Save(id: string, status: SaveStatus, note: Option<string>)

  // ---------------------------------------------------------------- meaning of an operation

  /** What an operation raises on a session with its id, if anything. */
  function ErrorOn(op: Operation, s: Session): Option<LabError> {
    match op
    case Start(_, _, _, _) => None
    case Answer(_, q, _) => if HasQuestion(s, q) then None else Some(QuestionNotFound)
    case Generate(_) => if Derive(s).canGenerate then None else Some(NotReady(Derive(s).unanswered))
    case Save(_, _, _) => if HasSolution(s) then None else Some(SolutionMissing)
  }

  function ChangeOf(h: Hasher, solve: Session -> Solution, op: Operation, s: Session): Session {
    match op
    case Start(_, _, _, _) => s
    case Answer(_, q, raw) => if raw.Text? then Answered(h, s, q, Strip(raw.text)) else s
    case Generate(_) => Generated(h, solve, s)
    case Save(_, st, note) => SavedAs(s, st, note)
  }

  predicate About(op: Operation, s: Session) {
    !op.Start? && s.id == op.id
  }

  /** The first error the rebuilding loop meets, in list order. */
  function FirstRaised(about: Session -> bool, errorOn: Session -> Option<LabError>, sessions: seq<Session>): Option<LabError> {
    if sessions == [] then None
    else
      var e := FirstRaised(about, errorOn, sessions[..|sessions| - 1]);
      if e.Some? then e
      else if about(sessions[|sessions| - 1]) then errorOn(sessions[|sessions| - 1]) else None
  }

  function MapWhere(about: Session -> bool, change: Session -> Session, sessions: seq<Session>): (r: seq<Session>)
    ensures |r| == |sessions|
    ensures forall i :: 0 <= i < |sessions| ==> r[i] == if about(sessions[i]) then change(sessions[i]) else sessions[i]
  {
    seq(|sessions|, i requires 0 <= i < |sessions| => if about(sessions[i]) then change(sessions[i]) else sessions[i])
  }

  function FirstError(op: Operation, sessions: seq<Session>): Option<LabError> {
    FirstRaised(s => About(op, s), s => ErrorOn(op, s), sessions)
  }

  function Rebuilt(h: Hasher, solve: Session -> Solution, op: Operation, sessions: seq<Session>): seq<Session> {
    MapWhere(s => About(op, s), s => ChangeOf(h, solve, op, s), sessions)
  }

  /** `_validated_answer` rejects anything but text that is not blank. */
  predicate InvalidAnswer(op: Operation) {
    op.Answer? && (op.raw.NotText? || Blank(op.raw.text))
  }

  /** The new session list, or the error; an error leaves the stored state alone. */
  function Apply(h: Hasher, solve: Session -> Solution, op: Operation, sessions: seq<Session>)
    : Result<seq<Session>, LabError>
  {
    if op.Start? then
      if Blank(op.problem) then Err(ProblemRequired)
      else Ok(sessions + [NewSession(h, op.newId, op.problem, op.hasModuleType, op.cases)])
    else if InvalidAnswer(op) then Err(AnswerInvalid)
    else
      match FirstError(op, sessions)
      case Some(e) => Err(e)
      case None => Ok(Rebuilt(h, solve, op, sessions))
  }

  function Exec(h: Hasher, solve: Session -> Solution, op: Operation, sessions: seq<Session>): seq<Session> {
    match Apply(h, solve, op, sessions)
    case Ok(after) => after
    case Err(_) => sessions
  }

  function Run(h: Hasher, solve: Session -> Solution, ops: seq<Operation>, sessions: seq<Session>): seq<Session> {
    if ops == [] then sessions else Exec(h, solve, ops[|ops| - 1], Run(h, solve, ops[..|ops| - 1], sessions))
  }

  // ---------------------------------------------------------------- the rebuilding loop

  lemma {:induction false} FirstRaisedExtends(
    about: Session -> bool, errorOn: Session -> Option<LabError>, sessions: seq<Session>, i: nat)
    requires i <= |sessions| && FirstRaised(about, errorOn, sessions[..i]).Some?
    ensures FirstRaised(about, errorOn, sessions) == FirstRaised(about, errorOn, sessions[..i])
  {
    if i < |sessions| {
      assert sessions[..|sessions| - 1][..i] == sessions[..i];
      FirstRaisedExtends(about, errorOn, sessions[..|sessions| - 1], i);
    } else {
      assert sessions[..i] == sessions;
    }
  }

  /** What the addressed session becomes; of several, the last one. */
  function LastChanged(about: Session -> bool, change: Session -> Session, sessions: seq<Session>): (r: Option<Session>)
    ensures r.None? <==> forall i :: 0 <= i < |sessions| ==> !about(sessions[i])
  {
    if sessions == [] then None
    else if about(sessions[|sessions| - 1]) then Some(change(sessions[|sessions| - 1]))
    else LastChanged(about, change, sessions[..|sessions| - 1])
  }

  /** The loop of every updater: unrelated sessions are copied, the addressed one is checked and
      replaced, the first error stops the loop. */
  method RebuildSessions(
    about: Session -> bool, errorOn: Session -> Option<LabError>, change: Session -> Session, sessions: seq<Session>)
    returns (r: Result<seq<Session>, LabError>, updated: Option<Session>)
    ensures r == match FirstRaised(about, errorOn, sessions)
                 case Some(e) => Err(e)
                 case None => Ok(MapWhere(about, change, sessions))
    ensures r.Ok? ==> updated == LastChanged(about, change, sessions)
  {
    var rebuilt: seq<Session> := [];
    updated := None;
    for i := 0 to |sessions|
      invariant FirstRaised(about, errorOn, sessions[..i]).None?
      invariant |rebuilt| == i
      invariant forall j :: 0 <= j < i ==> rebuilt[j] == if about(sessions[j]) then change(sessions[j]) else sessions[j]
      invariant updated == LastChanged(about, change, sessions[..i])
    {
      assert sessions[..i + 1][..i] == sessions[..i];
      if !about(sessions[i]) {
        rebuilt := rebuilt + [sessions[i]];
      } else {
        var e := errorOn(sessions[i]);
        if e.Some? {
          FirstRaisedExtends(about, errorOn, sessions, i + 1);
          return Err(e.value), None;
        }
        updated := Some(change(sessions[i]));
        rebuilt := rebuilt + [updated.value];
      }
    }
    assert sessions[..|sessions|] == sessions;
    assert rebuilt == MapWhere(about, change, sessions);
    r := Ok(rebuilt);
  }

  /** The last session stored under an id. */
  function LastOf(id: string, sessions: seq<Session>): (r: Option<Session>)
    ensures r.None? <==> forall i :: 0 <= i < |sessions| ==> sessions[i].id != id
    ensures r.Some? ==> r.value in sessions && r.value.id == id
  {
    if sessions == [] then None
    else if sessions[|sessions| - 1].id == id then Some(sessions[|sessions| - 1])
    else LastOf(id, sessions[..|sessions| - 1])
  }

  lemma {:induction false} LastChangedIsLast(h: Hasher, solve: Session -> Solution, op: Operation, sessions: seq<Session>)
    requires !op.Start?
    ensures LastChanged(s => About(op, s), s => ChangeOf(h, solve, op, s), sessions) == LastOf(op.id, Rebuilt(h, solve, op, sessions))
  {
    if sessions != [] {
      var front := sessions[..|sessions| - 1];
      LastChangedIsLast(h, solve, op, front);
      var rebuilt := Rebuilt(h, solve, op, sessions);
      assert rebuilt[..|rebuilt| - 1] == Rebuilt(h, solve, op, front);
    }
  }

  predicate HoldsAnswer(s: Session, q: string, answer: string) {
    HasQuestion(s, q) && forall i :: 0 <= i < |s.questions| && s.questions[i].id == q ==> s.questions[i].answered == Some(answer)
  }

  /** After an answer every session of that id holds it. */
  lemma {:induction false} AnswersAreHeld(h: Hasher, solve: Session -> Solution, op: Operation, sessions: seq<Session>)
    requires op.Answer? && !InvalidAnswer(op)
    ensures FirstError(op, sessions).None? ==>
      forall s :: s in Rebuilt(h, solve, op, sessions) && s.id == op.id ==> HoldsAnswer(s, op.question, Strip(op.raw.text))
  {
    if FirstError(op, sessions).None? {
      var after := Rebuilt(h, solve, op, sessions);
      forall k | 0 <= k < |after| && after[k].id == op.id
        ensures HoldsAnswer(after[k], op.question, Strip(op.raw.text))
      {
        NoErrorAnywhere(op, sessions, k);
        var i :| 0 <= i < |sessions[k].questions| && sessions[k].questions[i].id == op.question;
        assert after[k].questions[i].id == op.question;
      }
    }
  }

  // ---------------------------------------------------------------- the service

  class ProjectLabService {
    const h: Hasher
    const solve: Session -> Solution
    var sessions: seq<Session>

    constructor (h: Hasher, solve: Session -> Solution)
      ensures this.h == h && this.solve == solve && sessions == []
    {
      this.h, this.solve := h, solve;
      sessions := [];
    }

    method StartSession(newId: string, problem: string, hasModuleType: bool, cases: seq<string>)
      returns (r: Result<Session, LabError>)
      modifies this
      ensures sessions == Exec(h, solve, Start(newId, problem, hasModuleType, cases), old(sessions))
      ensures r.Err? <==> Blank(problem)
      ensures r.Ok? ==> sessions == old(sessions) + [r.value]
    {
      if Blank(problem) {
        return Err(ProblemRequired);
      }
      var session := NewSession(h, newId, problem, hasModuleType, cases);
      sessions := sessions + [session];
      return Ok(session);
    }

    /** The part shared by answer, generate and save: an error abandons the update. */
    method Rebuild(op: Operation) returns (r: Result<Option<Session>, LabError>)
      requires !op.Start? && !InvalidAnswer(op)
      modifies this
      ensures sessions == Exec(h, solve, op, old(sessions))
      ensures r.Err? <==> Apply(h, solve, op, old(sessions)).Err?
      ensures r.Err? ==> r.error == Apply(h, solve, op, old(sessions)).error
      ensures r.Ok? ==> r.value == LastOf(op.id, sessions)
    {
      var about := s => About(op, s);
      var errorOn := s => ErrorOn(op, s);
      var change := s => ChangeOf(h, solve, op, s);
      LastChangedIsLast(h, solve, op, sessions);
      var rebuilt, updated := RebuildSessions(about, errorOn, change, sessions);
      if rebuilt.Err? {
        return Err(rebuilt.error);
      }
      sessions := rebuilt.value;
      r := Ok(updated);
    }

    method AnswerQuestion(id: string, question: string, raw: RawAnswer) returns (r: Result<Option<Session>, LabError>)
      modifies this
      ensures sessions == Exec(h, solve, Answer(id, question, raw), old(sessions))
      ensures r.Err? <==> Apply(h, solve, Answer(id, question, raw), old(sessions)).Err?
      ensures r.Ok? ==> r.value == LastOf(id, sessions)
      ensures r.Ok? && r.value.Some? ==> HoldsAnswer(r.value.value, question, Strip(raw.text))
    {
      if raw.NotText? || Blank(raw.text) {
        return Err(AnswerInvalid);
      }
      AnswersAreHeld(h, solve, Answer(id, question, raw), sessions);
      r := Rebuild(Answer(id, question, raw));
    }

    method GenerateSolution(id: string) returns (r: Result<Option<SolutionResult>, LabError>)
      modifies this
      ensures sessions == Exec(h, solve, Generate(id), old(sessions))
      ensures r.Err? <==> Apply(h, solve, Generate(id), old(sessions)).Err?
      ensures r.Ok? ==> match r.value
        case None => LastOf(id, sessions) == None
        case Some(result) =>
          && LastOf(id, sessions) == Some(result.session)
          && result.session.generatedSolution == Some(result.solution.markdown)
          && result.session.solutionJson == Some(result.solution.json)
    {
      var updated := Rebuild(Generate(id));
      match updated
      case Err(e) => r := Err(e);
      case Ok(None) => r := Ok(None);
      case Ok(Some(session)) =>
        r := Ok(Some(SolutionResult(session, Solution(session.generatedSolution.value, session.solutionJson.value))));
    }

    method SaveSession(id: string, status: SaveStatus, note: Option<string>) returns (r: Result<Option<Session>, LabError>)
      modifies this
      ensures sessions == Exec(h, solve, Save(id, status, note), old(sessions))
      ensures r.Err? <==> Apply(h, solve, Save(id, status, note), old(sessions)).Err?
      ensures r.Ok? ==> r.value == LastOf(id, sessions)
      ensures r.Ok? && r.value.Some? ==> r.value.value.status == StatusOf(status)
    {
      r := Rebuild(Save(id, status, note));
    }
  }

  lemma {:induction false} NoErrorAnywhere(op: Operation, sessions: seq<Session>, i: nat)
    requires FirstError(op, sessions).None? && i < |sessions| && About(op, sessions[i])
    ensures ErrorOn(op, sessions[i]).None?
  {
    if i < |sessions| - 1 {
      NoErrorAnywhere(op, sessions[..|sessions| - 1], i);
    }
  }

  // ---------------------------------------------------------------- what every run keeps

  /** The stored workflow fields are the derived ones, and a closed session has a solution. */
  predicate Consistent(s: Session) {
    s.contract == Derive(s) && (s.status != Active ==> HasSolution(s))
  }

  predicate StaysAnswered(q: Question, q': Question) {
    q'.id == q.id && q'.required == q.required && (IsUnanswered(q') ==> IsUnanswered(q))
  }

  /** From an earlier to a later state of one session: identity is kept, a solution never changes, a
      closed session is never reopened, answered questions stay answered. */
  ghost predicate Evolves(s: Session, s': Session) {
    && s'.id == s.id && s'.problem == s.problem && s'.caseIds == s.caseIds
    && |s'.questions| == |s.questions|
    && (forall i :: 0 <= i < |s.questions| ==> StaysAnswered(s.questions[i], s'.questions[i]))
    && (HasSolution(s) ==>
          HasSolution(s') && s'.generatedSolution == s.generatedSolution && s'.solutionJson == s.solutionJson)
    && (s.status != Active ==> s'.status != Active)
  }

  lemma {:induction false} EvolvesTransitive(a: Session, b: Session, c: Session)
    requires Evolves(a, b) && Evolves(b, c)
    ensures Evolves(a, c)
  {
  }

  /** `s` is still as `start` was started: nothing answered, generated or closed. */
  predicate Untouched(s: Session, start: Session) {
    && start.id == s.id && start.problem == s.problem && start.caseIds == s.caseIds
    && |start.questions| == |s.questions|
    && (forall i :: 0 <= i < |s.questions| ==>
          start.questions[i].id == s.questions[i].id && start.questions[i].required == s.questions[i].required
          && IsUnanswered(s.questions[i]))
    && !HasSolution(s) && s.status == Active
  }

  /** A newly started session is a later state of one exactly when nothing has been done in that one yet. */
  lemma {:induction false} FreshEvolvesIff(
    h: Hasher, s: Session, session: string, problem: string, hasModuleType: bool, cases: seq<string>)
    ensures
      var start := NewSession(h, session, problem, hasModuleType, cases);
      Evolves(s, start) <==> Untouched(s, start)
  {
  }

  lemma {:induction false} ChangeEvolves(h: Hasher, solve: Session -> Solution, op: Operation, s: Session)
    requires Consistent(s) && About(op, s) && ErrorOn(op, s).None?
    requires !InvalidAnswer(op)
    ensures
      var s' := ChangeOf(h, solve, op, s);
      Consistent(s') && Evolves(s, s')
  {
    match op
    case Answer(_, q, raw) => StripIff(raw.text);
    case Generate(_) =>
      assert "problem" in SolutionFor(solve, WithContract(s)).json;
    case Save(_, _, _) =>
  }

  lemma {:induction false} ExecStep(h: Hasher, solve: Session -> Solution, op: Operation, sessions: seq<Session>)
    requires forall i :: 0 <= i < |sessions| ==> Consistent(sessions[i])
    ensures
      var after := Exec(h, solve, op, sessions);
      |sessions| <= |after| &&
      (forall i :: 0 <= i < |after| ==> Consistent(after[i])) &&
      (forall i :: 0 <= i < |sessions| ==> Evolves(sessions[i], after[i])) &&
      (forall i :: 0 <= i < |sessions| && !About(op, sessions[i]) ==> after[i] == sessions[i])
  {
    var after := Exec(h, solve, op, sessions);
    if Apply(h, solve, op, sessions).Ok? && !op.Start? {
      forall i | 0 <= i < |sessions| && About(op, sessions[i])
        ensures Consistent(after[i]) && Evolves(sessions[i], after[i])
      {
        NoErrorAnywhere(op, sessions, i);
        ChangeEvolves(h, solve, op, sessions[i]);
      }
    }
  }

  /** Over every run, from every prefix of it to every later one: sessions stay consistent, only ever
      evolve, and keep their place in the list. */
  lemma {:induction false} RunsEvolve(
    h: Hasher, solve: Session -> Solution, ops: seq<Operation>, k: nat, sessions: seq<Session>)
    requires k <= |ops| && forall i :: 0 <= i < |sessions| ==> Consistent(sessions[i])
    ensures
      var early, late := Run(h, solve, ops[..k], sessions), Run(h, solve, ops, sessions);
      |early| <= |late| &&
      (forall i :: 0 <= i < |late| ==> Consistent(late[i])) &&
      (forall i :: 0 <= i < |early| ==> Consistent(early[i]) && Evolves(early[i], late[i]))
  {
    var early := Run(h, solve, ops[..k], sessions);
    if k == |ops| {
      assert ops[..k] == ops;
      if ops != [] {
        RunsEvolve(h, solve, ops[..k - 1], k - 1, sessions);
        assert ops[..k - 1][..k - 1] == ops[..k - 1];
        ExecStep(h, solve, ops[k - 1], Run(h, solve, ops[..k - 1], sessions));
      }
    } else {
      var front := ops[..|ops| - 1];
      assert front[..k] == ops[..k];
      RunsEvolve(h, solve, front, k, sessions);
      var mid := Run(h, solve, front, sessions);
      ExecStep(h, solve, ops[|ops| - 1], mid);
      var late := Run(h, solve, ops, sessions);
      forall i | 0 <= i < |early| ensures Evolves(early[i], late[i]) {
        EvolvesTransitive(early[i], mid[i], late[i]);
      }
    }
  }

  /** Generating is refused, and changes nothing, as soon as one session of that id has a solution: so
      of two racing calls at most one produces a solution. */
  lemma {:induction false} SecondGenerateIsRefused(h: Hasher, solve: Session -> Solution, id: string, sessions: seq<Session>, i: nat)
    requires i < |sessions| && sessions[i].id == id && HasSolution(sessions[i])
    ensures Apply(h, solve, Generate(id), sessions).Err?
    ensures Exec(h, solve, Generate(id), sessions) == sessions
  {
    if FirstError(Generate(id), sessions).None? {
      NoErrorAnywhere(Generate(id), sessions, i);
    }
  }

  /** The questions that count as unanswered only shrink. */
  lemma {:induction false} UnansweredShrinks(before: seq<Question>, after: seq<Question>)
    requires |before| == |after|
    requires forall i :: 0 <= i < |before| ==> StaysAnswered(before[i], after[i])
    ensures |Unanswered(after)| <= |Unanswered(before)|
    ensures forall q :: q in Unanswered(after) ==> q in Unanswered(before)
    ensures (exists i :: 0 <= i < |before| && before[i].required && IsUnanswered(before[i]) && !IsUnanswered(after[i])) ==>
      |Unanswered(after)| < |Unanswered(before)|
  {
    if before != [] {
      UnansweredShrinks(before[1..], after[1..]);
      if exists i :: 0 <= i < |before| && before[i].required && IsUnanswered(before[i]) && !IsUnanswered(after[i]) {
        var i :| 0 <= i < |before| && before[i].required && IsUnanswered(before[i]) && !IsUnanswered(after[i]);
        if i > 0 {
          assert before[1..][i - 1] == before[i] && after[1..][i - 1] == after[i];
        }
      }
    }
  }

  // ---------------------------------------------------------------- a client that follows next_action

  /** What the server's advice amounts to: answer the first open question, generate, save, stop. */
  function Advice(s: Session, answer: string): Option<Operation> {
    match s.contract.nextAction
    case AnswerQuestion =>
      if s.contract.unanswered == [] then None
      else Some(Answer(s.id, s.contract.unanswered[0], Text(answer)))
    case GenerateSolution => Some(Generate(s.id))
    case ReviewSolution => Some(Save(s.id, AsSaved, None))
    case NoAction => None
  }

  function Follow(h: Hasher, solve: Session -> Solution, sessions: seq<Session>, k: nat, answer: string, steps: nat)
    : seq<Session>
    requires k < |sessions|
    decreases steps
  {
    if steps == 0 then sessions
    else
      match Advice(sessions[k], answer)
      case None => sessions
      case Some(op) =>
        var after := Exec(h, solve, op, sessions);
        if k < |after| then Follow(h, solve, after, k, answer, steps - 1) else after
  }

  /** An upper bound on the steps left. */
  function StepsLeft(s: Session): nat {
    match s.contract.nextAction
    case AnswerQuestion => |s.contract.unanswered| + 2
    case GenerateSolution => 2
    case ReviewSolution => 1
    case NoAction => 0
  }

  ghost predicate OnlyHere(sessions: seq<Session>, k: nat) {
    k < |sessions| && forall i :: 0 <= i < |sessions| && sessions[i].id == sessions[k].id ==> i == k
  }

  lemma {:induction false} UnansweredMember(questions: seq<Question>, q: string)
    requires q in Unanswered(questions)
    ensures exists i :: 0 <= i < |questions| && questions[i].id == q && questions[i].required && IsUnanswered(questions[i])
  {
    if questions[0].required && IsUnanswered(questions[0]) && questions[0].id == q {
    } else {
      UnansweredMember(questions[1..], q);
      var i :| 0 <= i < |questions[1..]| && questions[1..][i].id == q && questions[1..][i].required && IsUnanswered(questions[1..][i]);
      assert questions[i + 1] == questions[1..][i];
    }
  }

  lemma {:induction false} NoErrorIf(op: Operation, sessions: seq<Session>)
    requires forall i :: 0 <= i < |sessions| && About(op, sessions[i]) ==> ErrorOn(op, sessions[i]).None?
    ensures FirstError(op, sessions).None?
  {
    if sessions != [] {
      NoErrorIf(op, sessions[..|sessions| - 1]);
    }
  }

  lemma {:induction false} GeneratedHasSolution(h: Hasher, solve: Session -> Solution, s: Session)
    ensures HasSolution(Generated(h, solve, s)) && StepsLeft(Generated(h, solve, s)) == 1
  {
    assert "problem" in SolutionFor(solve, WithContract(s)).json;
  }

  lemma {:induction false} AnsweredHasFewerSteps(h: Hasher, s: Session, q: string, answer: string)
    requires Consistent(s) && s.contract.nextAction == AnswerQuestion
    requires !Blank(answer) && q in Unanswered(s.questions)
    ensures StepsLeft(Answered(h, s, q, Strip(answer))) < StepsLeft(s)
  {
    AnswerShrinks(h, s, q, answer);
    var after := Answered(h, s, q, Strip(answer));
    assert after.status == s.status && after.contract == Derive(after);
  }

  /** On the session itself, doing what the server advises is allowed and leaves fewer steps. */
  lemma {:induction false} AdviceShrinks(h: Hasher, solve: Session -> Solution, s: Session, answer: string)
    requires Consistent(s) && !Blank(answer) && s.contract.nextAction != NoAction
    ensures Advice(s, answer).Some?
    ensures
      var op := Advice(s, answer).value;
      && About(op, s) && ErrorOn(op, s).None? && !InvalidAnswer(op)
      && StepsLeft(ChangeOf(h, solve, op, s)) < StepsLeft(s)
  {
    match s.contract.nextAction
    case AnswerQuestion =>
      UnansweredMember(s.questions, s.contract.unanswered[0]);
      AnsweredHasFewerSteps(h, s, s.contract.unanswered[0], answer);
    case GenerateSolution => GeneratedHasSolution(h, solve, s);
    case ReviewSolution =>
    case NoAction =>
  }

  lemma {:induction false} AdviceMakesProgress(h: Hasher, solve: Session -> Solution, sessions: seq<Session>, k: nat, answer: string)
    requires OnlyHere(sessions, k) && !Blank(answer)
    requires forall i :: 0 <= i < |sessions| ==> Consistent(sessions[i])
    requires sessions[k].contract.nextAction != NoAction
    ensures
      var op := Advice(sessions[k], answer);
      op.Some? &&
      var after := Exec(h, solve, op.value, sessions);
      |after| == |sessions| && OnlyHere(after, k) &&
      (forall i :: 0 <= i < |after| ==> Consistent(after[i])) &&
      StepsLeft(after[k]) < StepsLeft(sessions[k])
  {
    AdviceShrinks(h, solve, sessions[k], answer);
    var op := Advice(sessions[k], answer).value;
    NoErrorIf(op, sessions);
    ExecStep(h, solve, op, sessions);
    assert Exec(h, solve, op, sessions)[k] == ChangeOf(h, solve, op, sessions[k]);
  }

  lemma {:induction false} AnswerShrinks(h: Hasher, s: Session, q: string, answer: string)
    requires !Blank(answer) && q in Unanswered(s.questions)
    ensures |Unanswered(Answered(h, s, q, Strip(answer)).questions)| < |Unanswered(s.questions)|
  {
    StripIff(answer);
    UnansweredMember(s.questions, q);
    var i :| 0 <= i < |s.questions| && s.questions[i].id == q && s.questions[i].required && IsUnanswered(s.questions[i]);
    var after := SetAnswer(s.questions, q, Strip(answer));
    assert !IsUnanswered(after[i]);
    UnansweredShrinks(s.questions, after);
  }

  lemma {:induction false} StepsAreBounded(s: Session)
    requires Consistent(s)
    ensures StepsLeft(s) <= |Unanswered(s.questions)| + 2
    ensures s.contract.nextAction == NoAction ==> HasSolution(s)
  {
  }

  ghost predicate AllConsistent(sessions: seq<Session>) {
    forall i :: 0 <= i < |sessions| ==> Consistent(sessions[i])
  }

  /** One step of following the advice, and the shorter way that is left. */
  lemma {:induction false} FollowStep(h: Hasher, solve: Session -> Solution, sessions: seq<Session>, k: nat, answer: string, steps: nat)
    returns (after: seq<Session>)
    requires OnlyHere(sessions, k) && AllConsistent(sessions) && !Blank(answer) && steps > 0
    requires sessions[k].contract.nextAction != NoAction
    ensures OnlyHere(after, k) && AllConsistent(after) && StepsLeft(after[k]) < StepsLeft(sessions[k])
    ensures Follow(h, solve, sessions, k, answer, steps) == Follow(h, solve, after, k, answer, steps - 1)
  {
    AdviceMakesProgress(h, solve, sessions, k, answer);
    after := Exec(h, solve, Advice(sessions[k], answer).value, sessions);
  }

  predicate Finished(sessions: seq<Session>, k: nat) {
    k < |sessions| && sessions[k].contract.nextAction == NoAction && HasSolution(sessions[k])
  }

  lemma {:induction false} FollowEnds(h: Hasher, solve: Session -> Solution, sessions: seq<Session>, k: nat, answer: string, steps: nat)
    requires k < |sessions| && Consistent(sessions[k]) && sessions[k].contract.nextAction == NoAction
    ensures Follow(h, solve, sessions, k, answer, steps) == sessions && Finished(sessions, k)
  {
    StepsAreBounded(sessions[k]);
  }

  /** A client that always does what `next_action` says is done after at most two steps more than
      there are open questions. */
  lemma {:induction false} FollowingAdviceFinishes(
    h: Hasher, solve: Session -> Solution, sessions: seq<Session>, k: nat, answer: string, steps: nat)
    requires OnlyHere(sessions, k) && !Blank(answer) && AllConsistent(sessions)
    requires steps >= StepsLeft(sessions[k])
    ensures Finished(Follow(h, solve, sessions, k, answer, steps), k)
    ensures StepsLeft(sessions[k]) <= |Unanswered(sessions[k].questions)| + 2
    decreases steps
  {
    StepsAreBounded(sessions[k]);
    if sessions[k].contract.nextAction == NoAction {
      FollowEnds(h, solve, sessions, k, answer, steps);
    } else {
      var after := FollowStep(h, solve, sessions, k, answer, steps);
      FollowingAdviceFinishes(h, solve, after, k, answer, steps - 1);
    }
  }
}
