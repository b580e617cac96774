/** The records the prompt debugger passes between its parts: test cases,
    criteria, judge records, prompt versions, sessions, and the result of one
    call to the inference service. */
module Types {

  datatype Option<T> = None | Some(value: T) {
    function GetOr(default: T): T {
      match this
      case Some(v) => v
      case None => default
    }
  }

  datatype Role = User | Assistant | System

  /** A chat message. Its `timestamp` is a reading of the clock and is not modelled. */
  datatype Message = Message(role: Role, content: string)

  datatype Status = Pending | Running | Success | Failed

  /** The four qualitative levels of a composite score. */
  datatype Band = Outstanding | Excellent | Good | Basic {
    /** The label the interface stores in `overallLevel`. */
    function Label(): string {
      match this
      case Outstanding => "卓越"
      case Excellent => "优秀"
      case Good => "良好"
      case Basic => "基础"
    }
  }

  /** One judge record for one criterion. `criteriaId` is copied from the
      judge's JSON and may be absent (JavaScript `undefined`). */
  datatype EvalRecord = EvalRecord(
    criteriaId: Option<string>,
    criteriaName: string,
    score: int,
    passed: bool,
    reason: string,
    notApplicable: bool)

  /** A test case; the optional fields are `undefined` until a run fills them. */
  datatype TestCase = TestCase(
    id: int,
    title: string,
    messages: seq<Message>,
    status: Status,
    responses: Option<seq<string>>,
    evaluation: Option<string>,
    passed: Option<bool>,
    evaluationDetails: Option<seq<EvalRecord>>,
    overallLevel: Option<Band>,
    overallScore: Option<int>,
    conversationHistory: Option<seq<Message>>)

  /** A rubric item. `level` is kept as text ("P0" .. "P6"): generated
      criteria arrive as JSON and may carry any string. */
  datatype Criterion = Criterion(
    id: string,
    level: string,
    name: string,
    description: string,
    weight: int,
    enabled: bool,
    applicableCondition: Option<string>)

  datatype PromptVersion = PromptVersion(version: string, content: string, changes: string, timestamp: string)

  /** The per-session bundle. */
  datatype SessionData = SessionData(
    testCasesText: string,
    testCases: seq<TestCase>,
    evaluationCriteria: seq<Criterion>,
    criteriaGenerated: bool,
    generateCount: int,
    concurrentCount: int,
    testCaseLevel: string,
    openingStyle: string,
    criteriaScenario: string,
    progress: int,
    promptVersions: seq<PromptVersion>,
    currentVersion: string)

  datatype Session = Session(id: string, name: string, createdAt: string, updatedAt: string, data: SessionData)

  /** What one call to the inference service returns: it never throws, it
      reports failure through `success` and `error`. Token usage is not modelled. */
  datatype CallResult = CallResult(success: bool, response: Option<string>, error: Option<string>)

  /** JavaScript truthiness of an optional string: present and non-empty. */
  predicate Truthy(s: Option<string>) {
    s.Some? && s.value != ""
  }

  /** The criteria whose `enabled` flag is set, in order (`filter((c) => c.enabled)`). */
  function EnabledCriteria(cs: seq<Criterion>): (r: seq<Criterion>)
    ensures |r| <= |cs|
    ensures forall c :: c in r <==> c in cs && c.enabled
  {
    if cs == [] then []
    else if cs[0].enabled then [cs[0]] + EnabledCriteria(cs[1..])
    else EnabledCriteria(cs[1..])
  }
}
