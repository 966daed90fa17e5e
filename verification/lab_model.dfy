/**
 Lab sessions: a problem, a graph of nodes and edges, clarification questions, a generated solution
 and a status, together with the workflow fields the server derives from them.
 */
module LabModel {
  import opened StableIds
  import opened Texts
  import opened Wrappers

  datatype Status = Active | Saved | Adopted | Archived

  datatype Stage = Clarifying | ReadyToGenerate | SolutionGenerated | SolutionSaved | SolutionAdopted | SolutionArchived

  datatype NextAction = AnswerQuestion | GenerateSolution | ReviewSolution | NoAction

  datatype NodeType = ProblemNode | CaseNode | SolutionNode | FeedbackNode

  datatype Node = Node(id: string, nodeType: NodeType, payload: map<string, string>)

  datatype Relation = SimilarTo | AnsweredBy

  datatype Edge = Edge(source: string, target: string, relation: Relation)

  datatype Graph = Graph(nodes: seq<Node>, edges: seq<Edge>, focused: seq<string>, metadata: map<string, string>)

  datatype Question = Question(id: string, required: bool, answered: Option<string>)

  datatype Solution = Solution(markdown: string, json: map<string, string>)

  datatype Contract = Contract(stage: Stage, nextAction: NextAction, canGenerate: bool, unanswered: seq<string>)

  datatype Session = Session(
    id: string,
    problem: string,
    caseIds: seq<string>,
    graph: Graph,
    questions: seq<Question>,
    contract: Contract,
    generatedSolution: Option<string>,
    solutionJson: Option<map<string, string>>,
    status: Status)

  // ---------------------------------------------------------------- text

  predicate Blank(s: string) {
    Strip(s) == ""
  }

  // ---------------------------------------------------------------- derived workflow fields

  predicate IsUnanswered(q: Question) {
    q.answered.None? || Blank(q.answered.value)
  }

  function Unanswered(questions: seq<Question>): seq<string> {
    if questions == [] then []
    else
      (if questions[0].required && IsUnanswered(questions[0]) then [questions[0].id] else []) +
      Unanswered(questions[1..])
  }

  predicate HasSolution(s: Session) {
    (s.solutionJson.Some? && s.solutionJson.value != map[]) ||
    (s.generatedSolution.Some? && !Blank(s.generatedSolution.value))
  }

  /** `derive_lab_workflow`. */
  function Derive(s: Session): Contract {
    var unanswered := Unanswered(s.questions);
    match s.status
    case Saved => Contract(SolutionSaved, NoAction, false, unanswered)
    case Adopted => Contract(SolutionAdopted, NoAction, false, unanswered)
    case Archived => Contract(SolutionArchived, NoAction, false, unanswered)
    case Active =>
      if HasSolution(s) then Contract(SolutionGenerated, ReviewSolution, false, unanswered)
      else if unanswered != [] then Contract(Clarifying, AnswerQuestion, false, unanswered)
      else Contract(ReadyToGenerate, GenerateSolution, true, [])
  }

  function WithContract(s: Session): Session {
    s.(contract := Derive(s))
  }

  // ---------------------------------------------------------------- starting a session

  function ProblemNodeId(h: Hasher, session: string): string { StableId(h, "lab_node", [session, "problem"]) }
  function CaseNodeId(h: Hasher, session: string, c: string): string { StableId(h, "lab_node", [session, c]) }
  function SolutionNodeId(h: Hasher, session: string): string { StableId(h, "lab_node", [session, "solution"]) }
  function AnswerNodeId(h: Hasher, session: string, q: string): string { StableId(h, "lab_node", [session, q, "answer"]) }
  function QuestionId(h: Hasher, session: string, name: string): string { StableId(h, "lab_question", [session, name]) }

  function BuildGraph(h: Hasher, session: string, problem: string, cases: seq<string>): Graph {
    var p := ProblemNodeId(h, session);
    Graph(
      [Node(p, ProblemNode, map["text" := problem])] +
        seq(|cases|, i requires 0 <= i < |cases| =>
          Node(CaseNodeId(h, session, cases[i]), CaseNode, map["case_id" := cases[i]])),
      seq(|cases|, i requires 0 <= i < |cases| => Edge(p, CaseNodeId(h, session, cases[i]), SimilarTo)),
      [p],
      map[])
  }

  function Questions(h: Hasher, session: string, hasModuleType: bool, cases: seq<string>): seq<Question> {
    [Question(QuestionId(h, session, "success_metric"), true, None)] +
    (if hasModuleType then [] else [Question(QuestionId(h, session, "module_type"), true, None)]) +
    (if cases != [] then [] else [Question(QuestionId(h, session, "no_case_constraint"), true, None)])
  }

  function NewSession(h: Hasher, session: string, problem: string, hasModuleType: bool, cases: seq<string>): Session {
    WithContract(Session(
      session, Strip(problem), cases, BuildGraph(h, session, problem, cases),
      Questions(h, session, hasModuleType, cases),
      Contract(Clarifying, AnswerQuestion, false, []), None, None, Active))
  }

  // ---------------------------------------------------------------- one session, one operation

  function NodesWithout(nodes: seq<Node>, id: string): seq<Node> {
    if nodes == [] then []
    else (if nodes[0].id == id then [] else [nodes[0]]) + NodesWithout(nodes[1..], id)
  }

  function EdgesWithout(edges: seq<Edge>, source: string, target: string): seq<Edge> {
    if edges == [] then []
    else
      (if edges[0].source == source && edges[0].target == target then [] else [edges[0]]) +
      EdgesWithout(edges[1..], source, target)
  }

  function SetAnswer(questions: seq<Question>, q: string, answer: string): (r: seq<Question>)
    ensures |r| == |questions|
    ensures forall i :: 0 <= i < |questions| ==>
      r[i] == if questions[i].id == q then questions[i].(answered := Some(answer)) else questions[i]
  {
    if questions == [] then []
    else
      [if questions[0].id == q then questions[0].(answered := Some(answer)) else questions[0]] +
      SetAnswer(questions[1..], q, answer)
  }

  predicate HasQuestion(s: Session, q: string) {
    exists i :: 0 <= i < |s.questions| && s.questions[i].id == q
  }

  function Answered(h: Hasher, s: Session, q: string, answer: string): Session {
    var node := Node(AnswerNodeId(h, s.id, q), FeedbackNode, map["question_id" := q, "answer" := answer]);
    WithContract(s.(
      questions := SetAnswer(s.questions, q, answer),
      graph := s.graph.(
        nodes := NodesWithout(s.graph.nodes, node.id) + [node],
        edges := EdgesWithout(s.graph.edges, q, node.id) + [Edge(q, node.id, AnsweredBy)],
        focused := [node.id])))
  }

  /** The solution of a ready session; its JSON always carries the problem and the data policy. */
  function SolutionFor(solve: Session -> Solution, s: Session): Solution {
    var body := solve(s);
    body.(json := body.json + map["problem" := s.problem, "data_policy" := "real_project_radar_only"])
  }

  function Generated(h: Hasher, solve: Session -> Solution, s: Session): Session {
    var ready := WithContract(s);
    var solution := SolutionFor(solve, ready);
    var node := Node(SolutionNodeId(h, s.id), SolutionNode, solution.json);
    WithContract(ready.(
      generatedSolution := Some(solution.markdown),
      solutionJson := Some(solution.json),
      graph := s.graph.(nodes := NodesWithout(s.graph.nodes, node.id) + [node], focused := [node.id]),
      status := Active))
  }

  /** The three statuses a save request may carry. */
  datatype SaveStatus = AsSaved | AsAdopted | AsArchived

  function StatusOf(st: SaveStatus): Status {
    match st
    case AsSaved => Saved
    case AsAdopted => Adopted
    case AsArchived => Archived
  }

  function SavedAs(s: Session, st: SaveStatus, note: Option<string>): Session {
    var metadata :=
      if note.Some? && !Blank(note.value) then s.graph.metadata["save_note" := Strip(note.value)] else s.graph.metadata;
    WithContract(s.(status := StatusOf(st), graph := s.graph.(metadata := metadata)))
  }
}
