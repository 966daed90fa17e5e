/**
 Integrity of the lab graph on every session a run can reach.  The ids of nodes and questions are stable
 ids, so the word a case's node is hashed from is the case id trimmed and case folded: cases that read the
 same, or that read "problem", "solution" or like a question's answer, share a node id.
 */
module LabGraph {
  import opened Wrappers
  import opened LabModel
  import opened StableIds
  import opened Texts
  import opened LabWorkflow

  // ---------------------------------------------------------------- what integrity means

  function NodeIds(nodes: seq<Node>): set<string> {
    set n | n in nodes :: n.id
  }

  predicate UniqueIds(nodes: seq<Node>) {
    nodes == [] || ((forall n :: n in nodes[1..] ==> n.id != nodes[0].id) && UniqueIds(nodes[1..]))
  }

  function QuestionIds(questions: seq<Question>): set<string> {
    set q | q in questions :: q.id
  }

  /** No two edges leave the same question. */
  predicate OneEdgePer(edges: seq<Edge>, sources: set<string>) {
    edges == [] ||
    ((edges[0].source in sources ==> forall e :: e in edges[1..] ==> e.source != edges[0].source) &&
     OneEdgePer(edges[1..], sources))
  }

  predicate CaseEdge(h: Hasher, s: Session, e: Edge) {
    e.relation == SimilarTo && e.source == ProblemNodeId(h, s.id)
  }

  predicate AnswerEdge(h: Hasher, s: Session, e: Edge) {
    e.relation == AnsweredBy && e.source in QuestionIds(s.questions) && e.target == AnswerNodeId(h, s.id, e.source)
  }

  /** Every edge leads from the problem or from a question of the session to a node of the graph. */
  predicate EdgesSound(h: Hasher, s: Session) {
    ProblemNodeId(h, s.id) in NodeIds(s.graph.nodes) &&
    forall e :: e in s.graph.edges ==>
      e.target in NodeIds(s.graph.nodes) && (CaseEdge(h, s, e) || AnswerEdge(h, s, e))
  }

  function FeedbackFor(h: Hasher, s: Session, q: string, answer: string): Node {
    Node(AnswerNodeId(h, s.id, q), FeedbackNode, map["question_id" := q, "answer" := answer])
  }

  predicate CurrentFor(h: Hasher, s: Session, q: Question) {
    match q.answered
    case Some(a) => FeedbackFor(h, s, q.id, a) in s.graph.nodes
    case None => AnswerNodeId(h, s.id, q.id) !in NodeIds(s.graph.nodes)
  }

  /** A question has a feedback node exactly when it is answered, and it holds the latest answer. */
  predicate FeedbackCurrent(h: Hasher, s: Session) {
    forall q :: q in s.questions ==> CurrentFor(h, s, q)
  }

  /** Question ids come from the stable-id hash, one per question name. */
  ghost predicate QuestionsHashed(h: Hasher, s: Session) {
    (forall q :: q in s.questions ==> exists name :: q.id == QuestionId(h, s.id, name)) &&
    forall i, j :: 0 <= i < j < |s.questions| ==> s.questions[i].id != s.questions[j].id
  }

  function CaseNodeOf(h: Hasher, s: Session, c: string): Node {
    Node(CaseNodeId(h, s.id, c), CaseNode, map["case_id" := c])
  }

  /** Each selected case has its node, unless the solution's node has taken its place. */
  predicate CasesKept(h: Hasher, s: Session) {
    forall c :: c in s.caseIds ==>
      (CaseNodeOf(h, s, c) in s.graph.nodes <==> !(HasSolution(s) && Normalize(h, c) == "solution"))
  }

  ghost predicate GraphSound(h: Hasher, s: Session) {
    && UniqueIds(s.graph.nodes)
    && CasesKept(h, s)
    && QuestionsHashed(h, s)
    && EdgesSound(h, s)
    && OneEdgePer(s.graph.edges, QuestionIds(s.questions))
    && FeedbackCurrent(h, s)
    && (forall f :: f in s.graph.focused ==> f in NodeIds(s.graph.nodes))
  }

  // ---------------------------------------------------------------- filters

  lemma {:induction false} NodesWithoutMembers(nodes: seq<Node>, id: string)
    ensures forall n :: n in NodesWithout(nodes, id) <==> n in nodes && n.id != id
    ensures UniqueIds(nodes) ==> UniqueIds(NodesWithout(nodes, id))
  {
    if nodes != [] {
      NodesWithoutMembers(nodes[1..], id);
      assert nodes == [nodes[0]] + nodes[1..];
      if nodes[0].id != id {
        assert NodesWithout(nodes, id)[1..] == NodesWithout(nodes[1..], id);
      } else {
        assert NodesWithout(nodes, id) == NodesWithout(nodes[1..], id);
      }
    }
  }

  lemma {:induction false} UniqueAppend(nodes: seq<Node>, node: Node)
    requires UniqueIds(nodes) && node.id !in NodeIds(nodes)
    ensures UniqueIds(nodes + [node])
  {
    if nodes != [] {
      assert forall n :: n in nodes[1..] ==> n in nodes;
      UniqueAppend(nodes[1..], node);
      assert (nodes + [node])[1..] == nodes[1..] + [node];
      assert nodes[0].id in NodeIds(nodes);
    }
  }

  /** Replacing a node by one of the same id: the ids only grow and stay unique. */
  lemma {:induction false} ReplaceNode(nodes: seq<Node>, node: Node)
    ensures
      var after := NodesWithout(nodes, node.id) + [node];
      NodeIds(after) == NodeIds(nodes) + {node.id} &&
      (UniqueIds(nodes) ==> UniqueIds(after)) &&
      node in after &&
      forall n :: n in nodes && n.id != node.id ==> n in after
  {
    NodesWithoutMembers(nodes, node.id);
    var kept := NodesWithout(nodes, node.id);
    if UniqueIds(nodes) {
      UniqueAppend(kept, node);
    }
    forall x ensures x in NodeIds(kept + [node]) <==> x in NodeIds(nodes) || x == node.id {
      if x in NodeIds(nodes) && x != node.id {
        var n :| n in nodes && n.id == x;
        assert n in kept + [node];
      }
      if x == node.id {
        assert node in kept + [node];
      }
    }
  }

  lemma {:induction false} EdgesWithoutMembers(edges: seq<Edge>, source: string, target: string, sources: set<string>)
    ensures forall e :: e in EdgesWithout(edges, source, target) <==> e in edges && !(e.source == source && e.target == target)
    ensures OneEdgePer(edges, sources) ==> OneEdgePer(EdgesWithout(edges, source, target), sources)
  {
    if edges != [] {
      EdgesWithoutMembers(edges[1..], source, target, sources);
      assert edges == [edges[0]] + edges[1..];
      if edges[0].source == source && edges[0].target == target {
        assert EdgesWithout(edges, source, target) == EdgesWithout(edges[1..], source, target);
      } else {
        assert EdgesWithout(edges, source, target)[1..] == EdgesWithout(edges[1..], source, target);
      }
    }
  }

  lemma {:induction false} OneEdgeAppend(edges: seq<Edge>, edge: Edge, sources: set<string>)
    requires OneEdgePer(edges, sources)
    requires edge.source in sources ==> forall e :: e in edges ==> e.source != edge.source
    ensures OneEdgePer(edges + [edge], sources)
  {
    if edges != [] {
      assert edges[0] in edges && forall e :: e in edges[1..] ==> e in edges;
      OneEdgeAppend(edges[1..], edge, sources);
      assert (edges + [edge])[1..] == edges[1..] + [edge];
    }
  }

  // ---------------------------------------------------------------- starting

  lemma {:induction false} QuestionIdsDiffer(h: Hasher, s: string, name: string, name': string)
    requires Faithful(h) && IsWord(name) && IsWord(name') && name != name'
    ensures QuestionId(h, s, name) != QuestionId(h, s, name')
  {
    SameWordIff(h, "lab_question", s, name, name');
    NormalizeWord(h, name);
    NormalizeWord(h, name');
  }

  /** Within a session, two words are hashed to one id exactly when they normalize alike. */
  lemma {:induction false} SameWordIff(h: Hasher, prefix: string, s: string, a: string, b: string)
    requires Faithful(h)
    ensures StableId(h, prefix, [s, a]) == StableId(h, prefix, [s, b]) <==> Normalize(h, a) == Normalize(h, b)
  {
    SameIdIff(h, prefix, [s, a], [s, b]);
    JoinedTwo(h, s, a);
    JoinedTwo(h, s, b);
    SamePrefix(Normalize(h, s) + "|", Normalize(h, a), Normalize(h, b));
  }

  lemma {:induction false} SamePrefix(p: string, a: string, b: string)
    ensures p + a == p + b <==> a == b
  {
    assert (p + a)[|p|..] == a && (p + b)[|p|..] == b;
  }

  /** A case shares the id of the node that holds a question's answer exactly when it reads like the
      question's id, a bar and "answer". */
  lemma {:induction false} CaseIsAnswerIff(h: Hasher, s: string, c: string, q: string)
    requires Faithful(h)
    ensures CaseNodeId(h, s, c) == AnswerNodeId(h, s, q) <==> Normalize(h, c) == Normalize(h, q) + "|answer"
  {
    SameIdIff(h, "lab_node", [s, c], [s, q, "answer"]);
    JoinedTwo(h, s, c);
    JoinedThree(h, s, q, "answer");
    NormalizeWord(h, "answer");
    var answer := Normalize(h, q) + "|" + Normalize(h, "answer");
    SamePrefix(Normalize(h, s) + "|", Normalize(h, c), answer);
    assert answer == Normalize(h, q) + "|answer";
  }

  lemma {:induction false} SameAnswerIff(h: Hasher, s: string, q: string, q': string)
    requires Faithful(h)
    ensures AnswerNodeId(h, s, q) == AnswerNodeId(h, s, q') <==> Normalize(h, q) == Normalize(h, q')
  {
    var x, x' := Normalize(h, q) + "|answer", Normalize(h, q') + "|answer";
    SameIdIff(h, "lab_node", [s, q, "answer"], [s, q', "answer"]);
    JoinedThree(h, s, q, "answer");
    JoinedThree(h, s, q', "answer");
    NormalizeWord(h, "answer");
    assert Normalize(h, q) + "|" + Normalize(h, "answer") == x && Normalize(h, q') + "|" + Normalize(h, "answer") == x';
    SamePrefix(Normalize(h, s) + "|", x, x');
    if x == x' {
      assert x[..|x| - 7] == Normalize(h, q) && x'[..|x'| - 7] == Normalize(h, q');
    }
  }

  /** The solution's node is nobody's answer, whatever the question. */
  lemma {:induction false} SolutionIsNoAnswer(h: Hasher, s: string, q: string)
    requires Faithful(h)
    ensures SolutionNodeId(h, s) != AnswerNodeId(h, s, q)
  {
    CaseIsAnswerIff(h, s, "solution", q);
    NormalizeWord(h, "solution");
    assert (Normalize(h, q) + "|answer")[|Normalize(h, q)|] == '|';
  }

  /** Questions and nodes have different prefixes. */
  lemma {:induction false} QuestionIsNoNode(h: Hasher, s: string, name: string, parts: seq<string>)
    ensures QuestionId(h, s, name) != StableId(h, "lab_node", parts)
  {
    assert QuestionId(h, s, name)[4] == 'q' && StableId(h, "lab_node", parts)[4] == 'n';
  }

  predicate DistinctWords(h: Hasher, words: seq<string>) {
    forall i, j :: 0 <= i < j < |words| ==> Normalize(h, words[i]) != Normalize(h, words[j])
  }

  /** Case ids that read differently, none of them "problem". */
  predicate FreshCases(h: Hasher, cases: seq<string>) {
    DistinctWords(h, cases) && forall i :: 0 <= i < |cases| ==> Normalize(h, cases[i]) != "problem"
  }

  /** What a caller can check before starting a session: no two cases read alike, and none reads
      "problem" or like the answer to one of the session's questions. */
  predicate GoodCases(h: Hasher, session: string, hasModuleType: bool, cases: seq<string>) {
    && FreshCases(h, cases)
    && forall c, q :: c in cases && q in Questions(h, session, hasModuleType, cases) ==> Normalize(h, c) != q.id + "|answer"
  }

  lemma {:induction false} UniqueIdsByIndex(nodes: seq<Node>)
    ensures UniqueIds(nodes) <==> forall i, j :: 0 <= i < j < |nodes| ==> nodes[i].id != nodes[j].id
  {
    if nodes != [] {
      UniqueIdsByIndex(nodes[1..]);
      if UniqueIds(nodes) {
        forall i, j | 0 <= i < j < |nodes| ensures nodes[i].id != nodes[j].id {
          assert nodes[j] == nodes[1..][j - 1];
          if i > 0 { assert nodes[i] == nodes[1..][i - 1]; }
        }
      }
      if forall i, j :: 0 <= i < j < |nodes| ==> nodes[i].id != nodes[j].id {
        forall i, j | 0 <= i < j < |nodes[1..]| ensures nodes[1..][i].id != nodes[1..][j].id {
          assert nodes[i + 1].id != nodes[j + 1].id;
        }
      }
    }
  }

  /** The words the nodes of a fresh graph are hashed from, in order. */
  function NodeWords(cases: seq<string>): seq<string> {
    ["problem"] + cases
  }

  lemma {:induction false} FreshNodeIds(h: Hasher, session: string, problem: string, cases: seq<string>, i: nat)
    requires i < |cases| + 1
    ensures
      var nodes := BuildGraph(h, session, problem, cases).nodes;
      |nodes| == |cases| + 1 && nodes[i].id == CaseNodeId(h, session, NodeWords(cases)[i])
  {
  }

  lemma {:induction false} WordsDistinctIff(h: Hasher, cases: seq<string>)
    requires Faithful(h)
    ensures FreshCases(h, cases) <==> DistinctWords(h, NodeWords(cases))
  {
    var words := NodeWords(cases);
    NormalizeWord(h, "problem");
    if DistinctWords(h, words) {
      forall i, j | 0 <= i < j < |cases| ensures Normalize(h, cases[i]) != Normalize(h, cases[j]) {
        assert Normalize(h, words[i + 1]) != Normalize(h, words[j + 1]);
      }
      forall j | 0 <= j < |cases| ensures Normalize(h, cases[j]) != "problem" {
        assert Normalize(h, words[0]) != Normalize(h, words[j + 1]);
      }
    }
  }

  lemma {:induction false} SameFreshIdIff(h: Hasher, session: string, problem: string, cases: seq<string>, i: nat, j: nat)
    requires Faithful(h) && i < |cases| + 1 && j < |cases| + 1
    ensures
      var nodes, words := BuildGraph(h, session, problem, cases).nodes, NodeWords(cases);
      nodes[i].id == nodes[j].id <==> Normalize(h, words[i]) == Normalize(h, words[j])
  {
    FreshNodeIds(h, session, problem, cases, i);
    FreshNodeIds(h, session, problem, cases, j);
    SameWordIff(h, "lab_node", session, NodeWords(cases)[i], NodeWords(cases)[j]);
  }

  /** A freshly built graph has unique node ids exactly when no two selected case ids read alike, trimmed
      and case folded, and none reads like the word the problem node is hashed from. */
  lemma {:induction false} FreshGraphUniqueIff(h: Hasher, session: string, problem: string, cases: seq<string>)
    requires Faithful(h)
    ensures UniqueIds(BuildGraph(h, session, problem, cases).nodes) <==> FreshCases(h, cases)
  {
    var nodes := BuildGraph(h, session, problem, cases).nodes;
    var words := NodeWords(cases);
    UniqueIdsByIndex(nodes);
    WordsDistinctIff(h, cases);
    if UniqueIds(nodes) {
      forall i, j | 0 <= i < j < |words| ensures Normalize(h, words[i]) != Normalize(h, words[j]) {
        SameFreshIdIff(h, session, problem, cases, i, j);
      }
    }
    if DistinctWords(h, words) {
      forall i, j | 0 <= i < j < |nodes| ensures nodes[i].id != nodes[j].id {
        SameFreshIdIff(h, session, problem, cases, i, j);
      }
    }
  }

  lemma {:induction false} CapitalProblem(h: Hasher)
    requires Faithful(h)
    ensures Normalize(h, "Problem") == "problem"
  {
    StripIff("Problem");
    var rest := "roblem";
    assert "Problem" == "P" + rest && "problem" == "p" + rest;
    FoldPlain(h, rest);
    assert ("P" + rest)[1..] == rest && h.fold('P') == ['p'];
    assert Fold(h, "P" + rest) == ['p'] + rest;
  }

  lemma {:induction false} CapitalA(h: Hasher)
    requires Faithful(h)
    ensures Normalize(h, "A") == "a"
  {
    StripIff("A");
    assert "A"[1..] == "" && h.fold('A') == ['a'] && Fold(h, "") == "";
    assert Fold(h, "A") == h.fold('A') + Fold(h, "A"[1..]);
  }

  /** Distinct case ids are not enough: one case called "Problem", or "a" beside "A". */
  lemma {:induction false} CaseFoldingRepeatsIds(h: Hasher, session: string, problem: string)
    requires Faithful(h)
    ensures !UniqueIds(BuildGraph(h, session, problem, ["Problem"]).nodes)
    ensures !UniqueIds(BuildGraph(h, session, problem, ["a", "A"]).nodes)
  {
    FreshGraphUniqueIff(h, session, problem, ["Problem"]);
    FreshGraphUniqueIff(h, session, problem, ["a", "A"]);
    CapitalProblem(h);
    CapitalA(h);
    NormalizeWord(h, "a");
    assert Normalize(h, ["Problem"][0]) == "problem";
    assert Normalize(h, ["a", "A"][0]) == Normalize(h, ["a", "A"][1]);
  }

  /** The questions of a new session have hashed, pairwise distinct ids and no answers. */
  lemma {:induction false} FreshQuestionList(h: Hasher, session: string, hasModuleType: bool, cases: seq<string>)
    requires Faithful(h)
    ensures
      var qs := Questions(h, session, hasModuleType, cases);
      && (forall q :: q in qs ==> q.answered.None? && exists name :: q.id == QuestionId(h, session, name))
      && (forall i, j :: 0 <= i < j < |qs| ==> qs[i].id != qs[j].id)
  {
    FreshQuestionsDiffer(h, session);
    FreshQuestionNames(h, session, hasModuleType, cases);
    FreshQuestionsDistinct(h, session, hasModuleType, cases);
  }

  ghost predicate ThreeIds(h: Hasher, session: string) {
    var metric, kind, constraint :=
      QuestionId(h, session, "success_metric"), QuestionId(h, session, "module_type"), QuestionId(h, session, "no_case_constraint");
    metric != kind && metric != constraint && kind != constraint
  }

  lemma {:induction false} FreshQuestionsDistinct(h: Hasher, session: string, hasModuleType: bool, cases: seq<string>)
    requires ThreeIds(h, session)
    ensures
      var qs := Questions(h, session, hasModuleType, cases);
      forall i, j :: 0 <= i < j < |qs| ==> qs[i].id != qs[j].id
  {
  }

  lemma {:induction false} FreshQuestionsDiffer(h: Hasher, session: string)
    requires Faithful(h)
    ensures ThreeIds(h, session)
  {
    QuestionIdsDiffer(h, session, "success_metric", "module_type");
    QuestionIdsDiffer(h, session, "success_metric", "no_case_constraint");
    QuestionIdsDiffer(h, session, "module_type", "no_case_constraint");
  }

  lemma {:induction false} FreshQuestionNames(h: Hasher, session: string, hasModuleType: bool, cases: seq<string>)
    ensures
      forall q :: q in Questions(h, session, hasModuleType, cases) ==>
        q.answered.None? && exists name :: q.id == QuestionId(h, session, name)
  {
  }

  lemma {:induction false} FreshEdges(h: Hasher, s: Session, problem: string, cases: seq<string>)
    requires s.graph == BuildGraph(h, s.id, problem, cases)
    ensures ProblemNodeId(h, s.id) in NodeIds(s.graph.nodes)
    ensures forall e :: e in s.graph.edges ==> e.target in NodeIds(s.graph.nodes) && CaseEdge(h, s, e)
  {
    var nodes := s.graph.nodes;
    assert nodes[0] in nodes && nodes[0].id == ProblemNodeId(h, s.id);
    forall e | e in s.graph.edges ensures e.target in NodeIds(nodes) && CaseEdge(h, s, e) {
      var i :| 0 <= i < |s.graph.edges| && s.graph.edges[i] == e;
      assert nodes[i + 1] in nodes;
    }
  }

  predicate ReadsAsAnswer(h: Hasher, c: string, q: string) {
    Normalize(h, c) == Normalize(h, q) + "|answer"
  }

  lemma {:induction false} ProblemIsNoAnswer(h: Hasher, q: string)
    requires Faithful(h)
    ensures !ReadsAsAnswer(h, "problem", q)
  {
    NormalizeWord(h, "problem");
    assert (Normalize(h, q) + "|answer")[|Normalize(h, q)|] == '|';
  }

  /** In a fresh graph a question's answer node is present exactly when some case reads like it. */
  lemma {:induction false} FreshAnswerPresentIff(h: Hasher, s: Session, problem: string, cases: seq<string>, q: string)
    requires Faithful(h) && s.graph == BuildGraph(h, s.id, problem, cases)
    ensures AnswerNodeId(h, s.id, q) in NodeIds(s.graph.nodes) <==> exists c :: c in cases && ReadsAsAnswer(h, c, q)
  {
    ProblemIsNoAnswer(h, q);
    forall i | 0 <= i < |cases| + 1
      ensures s.graph.nodes[i].id == AnswerNodeId(h, s.id, q) <==> ReadsAsAnswer(h, NodeWords(cases)[i], q)
    {
      FreshNodeIds(h, s.id, problem, cases, i);
      CaseIsAnswerIff(h, s.id, NodeWords(cases)[i], q);
    }
    SomeNodeIff(h, s, problem, cases, q);
  }

  lemma {:induction false} SomeNodeIff(h: Hasher, s: Session, problem: string, cases: seq<string>, q: string)
    requires |s.graph.nodes| == |cases| + 1 && !ReadsAsAnswer(h, "problem", q)
    requires forall i :: 0 <= i < |cases| + 1 ==>
      (s.graph.nodes[i].id == AnswerNodeId(h, s.id, q) <==> ReadsAsAnswer(h, NodeWords(cases)[i], q))
    ensures AnswerNodeId(h, s.id, q) in NodeIds(s.graph.nodes) <==> exists c :: c in cases && ReadsAsAnswer(h, c, q)
  {
    var nodes := s.graph.nodes;
    if n :| n in nodes && n.id == AnswerNodeId(h, s.id, q) {
      var i :| 0 <= i < |nodes| && nodes[i] == n;
      assert i > 0 && NodeWords(cases)[i] == cases[i - 1];
    }
    if c :| c in cases && ReadsAsAnswer(h, c, q) {
      var i :| 0 <= i < |cases| && cases[i] == c;
      assert NodeWords(cases)[i + 1] == c && nodes[i + 1] in nodes;
    }
  }

  lemma {:induction false} QuestionReadsAsIs(h: Hasher, s: Session, q: Question)
    requires Faithful(h) && QuestionsHashed(h, s) && q in s.questions
    ensures Normalize(h, q.id) == q.id
  {
    var name :| q.id == QuestionId(h, s.id, name);
    IdIsPlain(h, "lab_question", [s.id, name]);
  }

  lemma {:induction false} FreshFeedbackIff(h: Hasher, s: Session, problem: string, cases: seq<string>)
    requires Faithful(h) && s.graph == BuildGraph(h, s.id, problem, cases)
    requires QuestionsHashed(h, s) && forall q :: q in s.questions ==> q.answered.None?
    ensures FeedbackCurrent(h, s) <==> forall c, q :: c in cases && q in s.questions ==> Normalize(h, c) != q.id + "|answer"
  {
    forall q | q in s.questions
      ensures AnswerNodeId(h, s.id, q.id) in NodeIds(s.graph.nodes) <==> exists c :: c in cases && Normalize(h, c) == q.id + "|answer"
    {
      QuestionReadsAsIs(h, s, q);
      FreshAnswerPresentIff(h, s, problem, cases, q.id);
      assert forall c :: ReadsAsAnswer(h, c, q.id) <==> Normalize(h, c) == q.id + "|answer";
    }
  }

  lemma {:induction false} FreshCasesKept(h: Hasher, s: Session, problem: string)
    requires s.graph == BuildGraph(h, s.id, problem, s.caseIds) && !HasSolution(s)
    ensures CasesKept(h, s)
  {
    forall c | c in s.caseIds ensures CaseNodeOf(h, s, c) in s.graph.nodes {
      var i :| 0 <= i < |s.caseIds| && s.caseIds[i] == c;
      assert s.graph.nodes[i + 1] == CaseNodeOf(h, s, c);
    }
  }

  lemma {:induction false} FreshQuestionsHashed(h: Hasher, s: Session, hasModuleType: bool)
    requires Faithful(h) && s.questions == Questions(h, s.id, hasModuleType, s.caseIds)
    ensures QuestionsHashed(h, s) && forall q :: q in s.questions ==> q.answered.None?
  {
    FreshQuestionList(h, s.id, hasModuleType, s.caseIds);
  }

  /** Everything but unique ids and answers is sound in a fresh graph whatever the cases. */
  lemma {:induction false} FreshRest(h: Hasher, s: Session, problem: string)
    requires s.graph == BuildGraph(h, s.id, problem, s.caseIds) && !HasSolution(s) && QuestionsHashed(h, s)
    ensures GraphSound(h, s) <==> UniqueIds(s.graph.nodes) && FeedbackCurrent(h, s)
  {
    FreshEdges(h, s, problem, s.caseIds);
    FreshCasesKept(h, s, problem);
    CaseEdgesLeaveNoQuestion(h, s, s.graph.edges);
  }

  /** A new session's graph is sound exactly when its cases are good. */
  lemma {:induction false} FreshSessionSoundIff(h: Hasher, session: string, problem: string, hasModuleType: bool, cases: seq<string>)
    requires Faithful(h)
    ensures GraphSound(h, NewSession(h, session, problem, hasModuleType, cases)) <==> GoodCases(h, session, hasModuleType, cases)
  {
    var s := NewSession(h, session, problem, hasModuleType, cases);
    FreshQuestionsHashed(h, s, hasModuleType);
    FreshRest(h, s, problem);
    FreshGraphUniqueIff(h, session, problem, cases);
    FreshFeedbackIff(h, s, problem, cases);
  }

  lemma {:induction false} CaseEdgesLeaveNoQuestion(h: Hasher, s: Session, edges: seq<Edge>)
    requires QuestionsHashed(h, s) && forall e :: e in edges ==> CaseEdge(h, s, e)
    ensures OneEdgePer(edges, QuestionIds(s.questions))
  {
    ProblemIsNoQuestion(h, s);
    if edges != [] {
      assert edges[0] in edges && forall e :: e in edges[1..] ==> e in edges;
      CaseEdgesLeaveNoQuestion(h, s, edges[1..]);
    }
  }

  lemma {:induction false} ProblemIsNoQuestion(h: Hasher, s: Session)
    requires QuestionsHashed(h, s)
    ensures ProblemNodeId(h, s.id) !in QuestionIds(s.questions)
  {
    forall q | q in s.questions ensures q.id != ProblemNodeId(h, s.id) {
      var name :| q.id == QuestionId(h, s.id, name);
      QuestionIsNoNode(h, s.id, name, [s.id, "problem"]);
    }
  }

  // ---------------------------------------------------------------- every operation keeps it

  lemma {:induction false} SameQuestionIds(s: Session, questions: seq<Question>)
    requires |questions| == |s.questions| && forall i :: 0 <= i < |questions| ==> questions[i].id == s.questions[i].id
    ensures QuestionIds(questions) == QuestionIds(s.questions)
  {
    forall x ensures x in QuestionIds(questions) <==> x in QuestionIds(s.questions) {
      if x in QuestionIds(questions) {
        var q :| q in questions && q.id == x;
        var i :| 0 <= i < |questions| && questions[i] == q;
        assert s.questions[i] in s.questions;
      }
      if x in QuestionIds(s.questions) {
        var q :| q in s.questions && q.id == x;
        var i :| 0 <= i < |questions| && s.questions[i] == q;
        assert questions[i] in questions;
      }
    }
  }

  lemma {:induction false} HashedAfterAnswer(h: Hasher, s: Session, q: string, answer: string)
    requires QuestionsHashed(h, s)
    ensures QuestionsHashed(h, Answered(h, s, q, answer))
    ensures QuestionIds(Answered(h, s, q, answer).questions) == QuestionIds(s.questions)
  {
    var after := Answered(h, s, q, answer).questions;
    SameQuestionIds(s, after);
    forall x | x in after ensures exists name :: x.id == QuestionId(h, s.id, name) {
      var i :| 0 <= i < |after| && after[i] == x;
      assert s.questions[i] in s.questions;
    }
  }

  /** Dropping the old answer edge of a question leaves it no edge at all. */
  lemma {:induction false} AnswerEdgeReplaced(h: Hasher, s: Session, q: string)
    requires GraphSound(h, s) && q in QuestionIds(s.questions)
    ensures
      var kept := EdgesWithout(s.graph.edges, q, AnswerNodeId(h, s.id, q));
      && (forall e :: e in kept ==> e in s.graph.edges && e.source != q)
      && OneEdgePer(kept + [Edge(q, AnswerNodeId(h, s.id, q), AnsweredBy)], QuestionIds(s.questions))
  {
    var target := AnswerNodeId(h, s.id, q);
    var kept := EdgesWithout(s.graph.edges, q, target);
    ProblemIsNoQuestion(h, s);
    EdgesWithoutMembers(s.graph.edges, q, target, QuestionIds(s.questions));
    forall e | e in kept ensures e.source != q {
      assert e in s.graph.edges;
    }
    OneEdgeAppend(kept, Edge(q, target, AnsweredBy), QuestionIds(s.questions));
  }

  lemma {:induction false} EdgesAfterAnswer(h: Hasher, s: Session, q: string, answer: string)
    requires GraphSound(h, s) && q in QuestionIds(s.questions)
    ensures
      var s' := Answered(h, s, q, answer);
      EdgesSound(h, s') && OneEdgePer(s'.graph.edges, QuestionIds(s'.questions))
  {
    var s' := Answered(h, s, q, answer);
    var node := FeedbackFor(h, s, q, answer);
    ReplaceNode(s.graph.nodes, node);
    HashedAfterAnswer(h, s, q, answer);
    AnswerEdgeReplaced(h, s, q);
    var kept := EdgesWithout(s.graph.edges, q, node.id);
    forall e | e in s'.graph.edges ensures e.target in NodeIds(s'.graph.nodes) && (CaseEdge(h, s', e) || AnswerEdge(h, s', e)) {
      if e in kept { assert e in s.graph.edges; }
    }
  }

  lemma {:induction false} OtherAnswer(h: Hasher, s: Session, q: string, q': string)
    requires Faithful(h) && QuestionsHashed(h, s) && q in QuestionIds(s.questions) && q' in QuestionIds(s.questions) && q != q'
    ensures AnswerNodeId(h, s.id, q) != AnswerNodeId(h, s.id, q')
  {
    var x :| x in s.questions && x.id == q;
    var x' :| x' in s.questions && x'.id == q';
    QuestionReadsAsIs(h, s, x);
    QuestionReadsAsIs(h, s, x');
    SameAnswerIff(h, s.id, q, q');
  }

  lemma {:induction false} SameIdSameNode(nodes: seq<Node>, a: Node, b: Node)
    requires UniqueIds(nodes) && a in nodes && b in nodes && a.id == b.id
    ensures a == b
  {
    UniqueIdsByIndex(nodes);
    var i :| 0 <= i < |nodes| && nodes[i] == a;
    var j :| 0 <= j < |nodes| && nodes[j] == b;
  }

  /** In a sound graph no case's node can be taken by an answer. */
  lemma {:induction false} CaseIsNoAnswer(h: Hasher, s: Session, c: string, q: string)
    requires Faithful(h) && GraphSound(h, s) && c in s.caseIds && q in QuestionIds(s.questions)
    ensures CaseNodeId(h, s.id, c) != AnswerNodeId(h, s.id, q)
  {
    var x :| x in s.questions && x.id == q;
    CaseIsAnswerIff(h, s.id, c, q);
    if CaseNodeId(h, s.id, c) == AnswerNodeId(h, s.id, q) {
      assert Normalize(h, c)[|Normalize(h, q)|] == '|';
      assert CaseNodeOf(h, s, c) in s.graph.nodes;
      if x.answered.Some? {
        SameIdSameNode(s.graph.nodes, CaseNodeOf(h, s, c), FeedbackFor(h, s, q, x.answered.value));
      }
    }
  }

  lemma {:induction false} CasesAfterAnswer(h: Hasher, s: Session, q: string, answer: string)
    requires Faithful(h) && GraphSound(h, s) && q in QuestionIds(s.questions)
    ensures CasesKept(h, Answered(h, s, q, answer))
  {
    var s' := Answered(h, s, q, answer);
    ReplaceNode(s.graph.nodes, FeedbackFor(h, s, q, answer));
    NodesWithoutMembers(s.graph.nodes, AnswerNodeId(h, s.id, q));
    forall c | c in s'.caseIds
      ensures CaseNodeOf(h, s', c) in s'.graph.nodes <==> CaseNodeOf(h, s, c) in s.graph.nodes
    {
      CaseIsNoAnswer(h, s, c, q);
      assert CaseNodeOf(h, s', c) == CaseNodeOf(h, s, c);
    }
  }

  lemma {:induction false} CurrentAfterAnswer(h: Hasher, s: Session, q: string, answer: string, i: nat)
    requires FeedbackCurrent(h, s) && i < |s.questions|
    requires s.questions[i].id != q ==> AnswerNodeId(h, s.id, s.questions[i].id) != AnswerNodeId(h, s.id, q)
    ensures CurrentFor(h, Answered(h, s, q, answer), Answered(h, s, q, answer).questions[i])
  {
    ReplaceNode(s.graph.nodes, FeedbackFor(h, s, q, answer));
    assert s.questions[i] in s.questions && CurrentFor(h, s, s.questions[i]);
  }

  lemma {:induction false} FeedbackAfterAnswer(h: Hasher, s: Session, q: string, answer: string)
    requires Faithful(h) && QuestionsHashed(h, s) && FeedbackCurrent(h, s) && q in QuestionIds(s.questions)
    ensures FeedbackCurrent(h, Answered(h, s, q, answer))
  {
    var s' := Answered(h, s, q, answer);
    forall i | 0 <= i < |s'.questions| ensures CurrentFor(h, s', s'.questions[i]) {
      assert s.questions[i] in s.questions;
      if s.questions[i].id != q { OtherAnswer(h, s, s.questions[i].id, q); }
      CurrentAfterAnswer(h, s, q, answer, i);
    }
  }

  lemma {:induction false} AnswerKeepsGraph(h: Hasher, s: Session, q: string, answer: string)
    requires Faithful(h) && GraphSound(h, s) && HasQuestion(s, q)
    ensures GraphSound(h, Answered(h, s, q, answer))
  {
    var i :| 0 <= i < |s.questions| && s.questions[i].id == q;
    assert s.questions[i] in s.questions;
    ReplaceNode(s.graph.nodes, FeedbackFor(h, s, q, answer));
    HashedAfterAnswer(h, s, q, answer);
    EdgesAfterAnswer(h, s, q, answer);
    FeedbackAfterAnswer(h, s, q, answer);
    CasesAfterAnswer(h, s, q, answer);
  }

  lemma {:induction false} SolutionTakesCaseIff(h: Hasher, s: string, c: string)
    requires Faithful(h)
    ensures CaseNodeId(h, s, c) == SolutionNodeId(h, s) <==> Normalize(h, c) == "solution"
  {
    SameWordIff(h, "lab_node", s, c, "solution");
    NormalizeWord(h, "solution");
  }

  lemma {:induction false} CaseAfterGenerate(h: Hasher, solve: Session -> Solution, s: Session, c: string)
    requires GraphSound(h, s) && c in s.caseIds
    requires CaseNodeId(h, s.id, c) == SolutionNodeId(h, s.id) <==> Normalize(h, c) == "solution"
    ensures CaseNodeOf(h, s, c) in Generated(h, solve, s).graph.nodes <==> Normalize(h, c) != "solution"
  {
    var s' := Generated(h, solve, s);
    var node := s'.graph.nodes[|s'.graph.nodes| - 1];
    NodesWithoutMembers(s.graph.nodes, node.id);
    assert node.nodeType == SolutionNode && node.id == SolutionNodeId(h, s.id);
  }

  lemma {:induction false} CasesAfterGenerate(h: Hasher, solve: Session -> Solution, s: Session)
    requires Faithful(h) && GraphSound(h, s)
    ensures CasesKept(h, Generated(h, solve, s))
  {
    var s' := Generated(h, solve, s);
    GeneratedHasSolution(h, solve, s);
    forall c | c in s'.caseIds
      ensures CaseNodeOf(h, s', c) in s'.graph.nodes <==> Normalize(h, c) != "solution"
    {
      SolutionTakesCaseIff(h, s.id, c);
      CaseAfterGenerate(h, solve, s, c);
    }
  }

  lemma {:induction false} GenerateKeepsGraph(h: Hasher, solve: Session -> Solution, s: Session)
    requires Faithful(h) && GraphSound(h, s)
    ensures GraphSound(h, Generated(h, solve, s))
  {
    CasesAfterGenerate(h, solve, s);
    var s' := Generated(h, solve, s);
    var node := s'.graph.nodes[|s'.graph.nodes| - 1];
    ReplaceNode(s.graph.nodes, node);
    forall x | x in s'.questions
      ensures CurrentFor(h, s', x)
    {
      assert x in s.questions;
      SolutionIsNoAnswer(h, s.id, x.id);
    }
    forall e | e in s'.graph.edges ensures e.target in NodeIds(s'.graph.nodes) && (CaseEdge(h, s', e) || AnswerEdge(h, s', e)) {
      assert e in s.graph.edges;
    }
  }

  lemma {:induction false} SaveKeepsGraph(h: Hasher, s: Session, st: SaveStatus, note: Option<string>)
    requires GraphSound(h, s)
    ensures GraphSound(h, SavedAs(s, st, note))
  {
    var s' := SavedAs(s, st, note);
    forall c | c in s'.caseIds ensures CaseNodeOf(h, s', c) == CaseNodeOf(h, s, c) {}
    assert s'.graph.nodes == s.graph.nodes && s'.graph.edges == s.graph.edges && s'.questions == s.questions;
    forall e | e in s'.graph.edges ensures CaseEdge(h, s', e) || AnswerEdge(h, s', e) {
      assert e in s.graph.edges;
    }
    forall x | x in s'.questions
      ensures CurrentFor(h, s', x)
    {
      assert x in s.questions;
    }
  }

  /** An operation that starts a session, if it is one, starts it on good cases. */
  predicate GoodStart(h: Hasher, op: Operation) {
    op.Start? && !Blank(op.problem) ==> GoodCases(h, op.newId, op.hasModuleType, op.cases)
  }

  ghost predicate AllSound(h: Hasher, sessions: seq<Session>) {
    forall i :: 0 <= i < |sessions| ==> GraphSound(h, sessions[i])
  }

  // ---------------------------------------------------------------- each session over a run

  lemma {:induction false} StepGrows(h: Hasher, solve: Session -> Solution, op: Operation, sessions: seq<Session>)
    ensures
      var after := Exec(h, solve, op, sessions);
      |after| == |sessions| ||
      (op.Start? && !Blank(op.problem) &&
       after == sessions + [NewSession(h, op.newId, op.problem, op.hasModuleType, op.cases)])
  {
  }

  /** The operation that started session `i`. */
  function StartOf(h: Hasher, solve: Session -> Solution, ops: seq<Operation>, i: nat): Operation
    requires i < |Run(h, solve, ops, [])|
  {
    var front := ops[..|ops| - 1];
    if i < |Run(h, solve, front, [])| then StartOf(h, solve, front, i) else ops[|ops| - 1]
  }

  /** If there is a session `i`, it was started on good cases. */
  predicate StartedWell(h: Hasher, solve: Session -> Solution, ops: seq<Operation>, i: nat) {
    i < |Run(h, solve, ops, [])| ==> GoodStart(h, StartOf(h, solve, ops, i))
  }

  /** Session `i` is sound at every point of the run from its start on. */
  ghost predicate SoundFromStart(h: Hasher, solve: Session -> Solution, ops: seq<Operation>, i: nat) {
    && (i < |Run(h, solve, ops, [])| ==> GraphSound(h, Run(h, solve, ops, [])[i]))
    && (ops == [] || SoundFromStart(h, solve, ops[..|ops| - 1], i))
  }

  lemma {:induction false} NotStartedYet(h: Hasher, solve: Session -> Solution, ops: seq<Operation>, i: nat)
    requires |Run(h, solve, ops, [])| <= i
    ensures SoundFromStart(h, solve, ops, i)
  {
    if ops != [] {
      var front := ops[..|ops| - 1];
      StepGrows(h, solve, ops[|ops| - 1], Run(h, solve, front, []));
      NotStartedYet(h, solve, front, i);
    }
  }

  /** One operation keeps a sound session sound, whatever the others are like. */
  lemma {:induction false} StepKeepsSession(h: Hasher, solve: Session -> Solution, op: Operation, sessions: seq<Session>, i: nat)
    requires Faithful(h) && i < |sessions| && GraphSound(h, sessions[i])
    ensures i < |Exec(h, solve, op, sessions)| && GraphSound(h, Exec(h, solve, op, sessions)[i])
  {
    if Apply(h, solve, op, sessions).Ok? && About(op, sessions[i]) {
      NoErrorAnywhere(op, sessions, i);
      OperationKeepsGraph(h, solve, op, sessions[i]);
    }
  }

  /** A session is sound from its start on, through every run and whatever the other sessions were started
      on, exactly when it was started on good cases.  Sound is: node ids are unique; every edge leads from
      the problem node or a question to a node; each question has at most one outgoing edge and, exactly when
      answered, one feedback node holding the latest answer; the focus is on present nodes; and each selected
      case has its node unless the solution's has taken its place. */
  lemma {:induction false} SessionSoundIff(h: Hasher, solve: Session -> Solution, ops: seq<Operation>, i: nat)
    requires Faithful(h)
    ensures SoundFromStart(h, solve, ops, i) <==> StartedWell(h, solve, ops, i)
  {
    if |Run(h, solve, ops, [])| <= i {
      NotStartedYet(h, solve, ops, i);
    } else {
      var front, op := ops[..|ops| - 1], ops[|ops| - 1];
      var before := Run(h, solve, front, []);
      SessionSoundIff(h, solve, front, i);
      if i < |before| {
        if SoundFromStart(h, solve, front, i) {
          StepKeepsSession(h, solve, op, before, i);
        }
      } else {
        StepGrows(h, solve, op, before);
        FreshSessionSoundIff(h, op.newId, op.problem, op.hasModuleType, op.cases);
      }
    }
  }

  /** All of a session's selected cases have their nodes until its solution is generated, and from then on
      exactly when none of them reads "solution". */
  lemma {:induction false} CasesStayIff(h: Hasher, solve: Session -> Solution, ops: seq<Operation>, i: nat)
    requires Faithful(h) && i < |Run(h, solve, ops, [])| && StartedWell(h, solve, ops, i)
    ensures
      var s := Run(h, solve, ops, [])[i];
      (forall c :: c in s.caseIds ==> CaseNodeOf(h, s, c) in s.graph.nodes) <==>
      (HasSolution(s) ==> forall c :: c in s.caseIds ==> Normalize(h, c) != "solution")
  {
    SessionSoundIff(h, solve, ops, i);
    assert CasesKept(h, Run(h, solve, ops, [])[i]);
  }

  lemma {:induction false} OperationKeepsGraph(h: Hasher, solve: Session -> Solution, op: Operation, s: Session)
    requires Faithful(h) && GraphSound(h, s)
    requires About(op, s) && ErrorOn(op, s).None? && !InvalidAnswer(op)
    ensures GraphSound(h, ChangeOf(h, solve, op, s))
  {
    match op
    case Answer(_, q, raw) => AnswerKeepsGraph(h, s, q, Strip(raw.text));
    case Generate(_) => GenerateKeepsGraph(h, solve, s);
    case Save(_, st, note) => SaveKeepsGraph(h, s, st, note);
  }

  /** One step keeps every graph sound exactly when it is no start on bad cases. */
  lemma {:induction false} StepKeepsGraphsIff(h: Hasher, solve: Session -> Solution, op: Operation, sessions: seq<Session>)
    requires Faithful(h) && AllSound(h, sessions)
    ensures AllSound(h, Exec(h, solve, op, sessions)) <==> GoodStart(h, op)
  {
    var after := Exec(h, solve, op, sessions);
    forall i | 0 <= i < |sessions| ensures i < |after| && GraphSound(h, after[i]) {
      StepKeepsSession(h, solve, op, sessions, i);
    }
    StepGrows(h, solve, op, sessions);
    if op.Start? && !Blank(op.problem) {
      FreshSessionSoundIff(h, op.newId, op.problem, op.hasModuleType, op.cases);
      assert after[|sessions|] == NewSession(h, op.newId, op.problem, op.hasModuleType, op.cases);
    }
  }
}
