/** The records of the mock-interview store (models.py): one datatype per
    table, the two status enums with the strings the API exchanges, and the
    table constraints (primary keys, unique columns, foreign references). */
module Models {
  import opened Common

  /** models.py:7-10. */
  datatype MockStatus = Scheduled | InProgress | Completed {
    /** The enum's string value. */
    function Label(): string {
      match this
      case Scheduled => "Scheduled"
      case InProgress => "In Progress"
      case Completed => "Completed"
    }
  }

  /** models.py:12-15. */
  datatype Correctness = Correct | Incorrect | Partial {
    function Label(): string {
      match this
      case Correct => "Correct"
      case Incorrect => "Incorrect"
      case Partial => "Partial"
    }
  }

  /** Reading a status back from its string value. */
  function ParseStatus(s: string): (r: Option<MockStatus>)
    ensures r.Some? ==> r.value.Label() == s
    ensures r.None? <==> forall m: MockStatus :: m.Label() != s
  {
    if s == "Scheduled" then Some(Scheduled)
    else if s == "In Progress" then Some(InProgress)
    else if s == "Completed" then Some(Completed)
    else None
  }

  /** Reading a correctness grade back from its string value. */
  function ParseCorrectness(s: string): (r: Option<Correctness>)
    ensures r.Some? ==> r.value.Label() == s
    ensures r.None? <==> forall c: Correctness :: c.Label() != s
  {
    if s == "Correct" then Some(Correct)
    else if s == "Incorrect" then Some(Incorrect)
    else if s == "Partial" then Some(Partial)
    else None
  }

  /** Every status has its own string value, and it reads back as itself. */
  lemma StatusLabelsRoundTrip(m: MockStatus, m': MockStatus)
    ensures ParseStatus(m.Label()) == Some(m)
    ensures m.Label() == m'.Label() ==> m == m'
  {
  }

  /** Every grade has its own string value, and it reads back as itself. */
  lemma CorrectnessLabelsRoundTrip(c: Correctness, c': Correctness)
    ensures ParseCorrectness(c.Label()) == Some(c)
    ensures c.Label() == c'.Label() ==> c == c'
  {
  }

  /** models.py:23-27: `name` is unique across the table. */
  datatype TechStack = TechStack(id: int, name: string)

  /** models.py:31-38: each question names exactly one tech stack. */
  datatype Question = Question(
    id: int,
    questionText: string,
    topic: Option<string>,
    idealAnswer: Option<string>,
    techStackId: int)

  /** models.py:42-50. `questionIds` is this mock's rows of the
      mock_questions association table, in insertion order; nothing keeps a
      question out of other mocks (many-to-many). */
  datatype Mock = Mock(id: int, name: string, description: Option<string>, questionIds: seq<int>)

  /** models.py:53-61: `email` is unique across the table. */
  datatype Candidate = Candidate(
    id: int,
    name: string,
    email: string,
    profileExp: Option<string>,
    passingYear: Option<int>,
    graduationDetails: Option<string>)

  /** models.py:66-76: one candidate's attempt at one mock. */
  datatype MockSession = MockSession(
    id: int,
    candidateId: int,
    mockId: int,
    status: MockStatus,
    overallResult: Option<string>,
    softSkillsFeedback: Option<string>,
    codingFeedback: Option<string>)

  /** models.py:82-89: one submitted answer, owned by one session and
      naming one question. */
  datatype SessionAnswer = SessionAnswer(
    id: int,
    mockSessionId: int,
    questionId: int,
    candidateAnswer: Option<string>,
    correctness: Option<Correctness>)

  /** A new session row: the status column falls back to Scheduled when no
      status is given, and the feedback columns start empty. */
  function NewMockSession(id: int, candidateId: int, mockId: int, status: Option<MockStatus>): (r: MockSession)
    ensures r.id == id && r.candidateId == candidateId && r.mockId == mockId
    ensures status.None? ==> r.status == Scheduled
    ensures status.Some? ==> r.status == status.value
    ensures r.overallResult.None? && r.softSkillsFeedback.None? && r.codingFeedback.None?
  {
    MockSession(id, candidateId, mockId, if status.Some? then status.value else Scheduled, None, None, None)
  }

  /** A new answer row: correctness is nullable and nothing sets it. */
  function NewSessionAnswer(id: int, sessionId: int, questionId: int, answer: Option<string>): (r: SessionAnswer)
    ensures r.id == id && r.mockSessionId == sessionId && r.questionId == questionId
    ensures r.candidateAnswer == answer && r.correctness.None?
  {
    SessionAnswer(id, sessionId, questionId, answer, None)
  }

  // Primary keys: with rows never deleted, the generated id of each row is
  // its position in the table plus one.

  ghost predicate StackKeys(t: seq<TechStack>) { forall i :: 0 <= i < |t| ==> t[i].id == i + 1 }
  ghost predicate QuestionKeys(t: seq<Question>) { forall i :: 0 <= i < |t| ==> t[i].id == i + 1 }
  ghost predicate MockKeys(t: seq<Mock>) { forall i :: 0 <= i < |t| ==> t[i].id == i + 1 }
  ghost predicate CandidateKeys(t: seq<Candidate>) { forall i :: 0 <= i < |t| ==> t[i].id == i + 1 }
  ghost predicate SessionKeys(t: seq<MockSession>) { forall i :: 0 <= i < |t| ==> t[i].id == i + 1 }
  ghost predicate AnswerKeys(t: seq<SessionAnswer>) { forall i :: 0 <= i < |t| ==> t[i].id == i + 1 }

  /** models.py:27. */
  ghost predicate UniqueStackNames(t: seq<TechStack>) {
    forall i, j :: 0 <= i < j < |t| ==> t[i].name != t[j].name
  }

  /** models.py:58. */
  ghost predicate UniqueEmails(t: seq<Candidate>) {
    forall i, j :: 0 <= i < j < |t| ==> t[i].email != t[j].email
  }

  /** Under the unique email column, an email identifies one candidate. */
  lemma EmailIdentifiesCandidate(t: seq<Candidate>, a: Candidate, b: Candidate)
    requires UniqueEmails(t) && a in t && b in t && a.email == b.email
    ensures a == b
  {
    var i :| 0 <= i < |t| && t[i] == a;
    var j :| 0 <= j < |t| && t[j] == b;
    if i < j || j < i {
      assert false;
    }
  }

  function StackIds(t: seq<TechStack>): set<int> { set x | x in t :: x.id }
  function QuestionIds(t: seq<Question>): set<int> { set x | x in t :: x.id }
  function MockIds(t: seq<Mock>): set<int> { set x | x in t :: x.id }
  function CandidateIds(t: seq<Candidate>): set<int> { set x | x in t :: x.id }
  function SessionIds(t: seq<MockSession>): set<int> { set x | x in t :: x.id }

  /** The foreign references of models.py:20, 38, 70-71 and 86-87 all name
      existing rows. */
  ghost predicate ReferencesResolve(
    stacks: seq<TechStack>, questions: seq<Question>, mocks: seq<Mock>,
    candidates: seq<Candidate>, sessions: seq<MockSession>, answers: seq<SessionAnswer>)
  {
    && (forall q :: q in questions ==> q.techStackId in StackIds(stacks))
    && (forall m, j :: m in mocks && 0 <= j < |m.questionIds| ==> m.questionIds[j] in QuestionIds(questions))
    && (forall s :: s in sessions ==> s.candidateId in CandidateIds(candidates) && s.mockId in MockIds(mocks))
    && (forall a :: a in answers ==> a.mockSessionId in SessionIds(sessions) && a.questionId in QuestionIds(questions))
  }

  /** The Mock-Question link is many-to-many (models.py:18-21, 50): two
      mocks may list the same question and every reference still resolves. */
  lemma SharedQuestionAllowed()
    ensures ReferencesResolve(
              [TechStack(1, "Python")],
              [Question(1, "What is a generator?", None, None, 1)],
              [Mock(1, "A", None, [1]), Mock(2, "B", None, [1])],
              [], [], [])
  {
    var qs := [Question(1, "What is a generator?", None, None, 1)];
    assert qs[0] in qs;
    assert 1 in QuestionIds(qs);
    assert 1 in StackIds([TechStack(1, "Python")]);
  }
}
