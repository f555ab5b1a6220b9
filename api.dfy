/** The request handlers of main.py: each is a guard in front of one call
    into the data-access layer. A duplicate tech-stack name is a Conflict
    (409), a missing mock or session is NotFound (404); the list endpoints
    default to the first hundred rows, and mock generation to ten
    questions. */
module Api {
  import opened Common
  import opened Models
  import Allocation
  import Crud

  /** The HTTP errors the handlers raise (main.py:38, 61, 72). */
  datatype HttpError = Conflict(detail: string) | NotFound(detail: string) {
    function StatusCode(): nat {
      match this
      case Conflict(_) => 409
      case NotFound(_) => 404
    }
  }

  /** A session as the submit endpoint returns it: the row and its answers. */
  datatype SessionView = SessionView(session: MockSession, answers: seq<SessionAnswer>)

  /** main.py:42 and 50. */
  const DefaultSkip: nat := 0
  const DefaultLimit: nat := 100

  /** The request's default question count (schemas.py:60). */
  const DefaultNumQuestions: nat := 10

  /** main.py:34-39: a name already in use is refused with 409 before the
      store is touched; otherwise exactly one stack with that name is added,
      and a default listing of a table of at most a hundred stacks shows
      it. */
  method CreateTechStack(db: Crud.Store, name: string) returns (r: Result<TechStack, HttpError>)
    requires db.Valid()
    modifies db`techStacks
    ensures db.Valid()
    ensures r.Err? <==> exists t :: t in old(db.techStacks) && t.name == name
    ensures r.Err? ==> r.error == Conflict("Tech stack with this name already exists") && r.error.StatusCode() == 409
    ensures r.Err? ==> db.techStacks == old(db.techStacks)
    ensures r.Ok? ==> r.value == TechStack(|old(db.techStacks)| + 1, name)
    ensures r.Ok? ==> db.techStacks == old(db.techStacks) + [r.value]
    ensures r.Ok? && |db.techStacks| <= DefaultLimit ==> r.value in ReadTechStacks(db)
    ensures old(db.Linked()) ==> db.Linked()
  {
    var existing := db.GetTechStackByName(name);
    if existing.Some? {
      return Err(Conflict("Tech stack with this name already exists"));
    }
    assert forall t :: t in db.techStacks ==> t.name != name;
    var created := db.CreateTechStack(name);
    r := Ok(created.value);
    if |db.techStacks| <= DefaultLimit {
      LastRowListed(db);
    }
  }

  /** With the default window, the newest stack of a table of at most a
      hundred is listed. */
  lemma LastRowListed(db: Crud.Store)
    requires 0 < |db.techStacks| <= DefaultLimit
    ensures db.techStacks[|db.techStacks| - 1] in ReadTechStacks(db)
  {
    PageWhole(db.techStacks, DefaultLimit);
  }

  /** main.py:41-43. */
  function ReadTechStacks(db: Crud.Store, skip: nat := DefaultSkip, limit: nat := DefaultLimit): (r: seq<TechStack>)
    reads db
    ensures |r| <= limit
    ensures forall i :: 0 <= i < |r| ==> r[i] in db.techStacks
    ensures skip == 0 && |db.techStacks| <= limit ==> r == db.techStacks
  {
    db.GetTechStacks(skip, limit)
  }

  /** main.py:45-47: passed straight to the store, no error of its own. */
  method CreateQuestion(db: Crud.Store, questionText: string, topic: Option<string>, idealAnswer: Option<string>, techStackId: int)
    returns (q: Question)
    requires db.Valid()
    modifies db`questions
    ensures db.Valid()
    ensures q == Question(|old(db.questions)| + 1, questionText, topic, idealAnswer, techStackId)
    ensures db.questions == old(db.questions) + [q]
    ensures old(db.Linked()) && techStackId in StackIds(db.techStacks) ==> db.Linked()
  {
    q := db.CreateQuestion(questionText, topic, idealAnswer, techStackId);
  }

  /** main.py:49-51. */
  function ReadQuestions(db: Crud.Store, skip: nat := DefaultSkip, limit: nat := DefaultLimit): (r: seq<Question>)
    reads db
    ensures |r| <= limit
    ensures forall i :: 0 <= i < |r| ==> r[i] in db.questions
    ensures skip == 0 && |db.questions| <= limit ==> r == db.questions
  {
    db.GetQuestions(skip, limit)
  }

  /** main.py:53-55: passed straight to the store; a short selection is not
      an error. */
  method GenerateMock(db: Crud.Store, name: string, description: Option<string>, stackIds: seq<int>,
                      numQuestions: nat := DefaultNumQuestions)
    returns (m: Mock, ghost draws: seq<seq<nat>>)
    requires db.Valid()
    modifies db`mocks
    ensures db.Valid()
    ensures db.mocks == old(db.mocks) + [m]
    ensures m.id == |old(db.mocks)| + 1 && m.name == name && m.description == description
    ensures |draws| == |stackIds| && Allocation.DrawsFit(Allocation.Pools(db.questions, stackIds), numQuestions, draws)
    ensures m.questionIds == Crud.QuestionIdsOf(Allocation.Selected(Allocation.Pools(db.questions, stackIds), draws))
    ensures |m.questionIds| <= numQuestions
    ensures 0 < |stackIds|
            && (forall i :: 0 <= i < |stackIds| ==> Allocation.Target(numQuestions, |stackIds|, i) <= |Allocation.StackPool(db.questions, stackIds[i])|)
            ==> |m.questionIds| == numQuestions
    ensures 0 < |stackIds|
            && (exists i :: 0 <= i < |stackIds| && |Allocation.StackPool(db.questions, stackIds[i])| < Allocation.Target(numQuestions, |stackIds|, i))
            ==> |m.questionIds| < numQuestions
    ensures (forall i, j :: 0 <= i < j < |stackIds| ==> stackIds[i] != stackIds[j])
            ==> forall i, j :: 0 <= i < j < |m.questionIds| ==> m.questionIds[i] != m.questionIds[j]
    ensures old(db.Linked()) ==> db.Linked()
  {
    m, draws := db.CreateMockFromStacks(name, description, stackIds, numQuestions);
  }

  /** main.py:57-62: the mock with that id, or 404. */
  function ReadMock(db: Crud.Store, mockId: int): (r: Result<Mock, HttpError>)
    reads db
    ensures r.Err? <==> forall m :: m in db.mocks ==> m.id != mockId
    ensures r.Err? ==> r.error == NotFound("Mock not found") && r.error.StatusCode() == 404
    ensures r.Ok? ==> r.value in db.mocks && r.value.id == mockId
    ensures r.Ok? && db.Valid() ==> 1 <= mockId <= |db.mocks| && r.value == db.mocks[mockId - 1]
  {
    match db.GetMock(mockId)
    case None => Err(NotFound("Mock not found"))
    case Some(m) => Ok(m)
  }

  /** main.py:64-66: passed straight to the store, no error of its own. */
  method CreateSession(db: Crud.Store, candidateId: int, mockId: int) returns (s: MockSession)
    requires db.Valid()
    modifies db`sessions
    ensures db.Valid()
    ensures s == NewMockSession(|old(db.sessions)| + 1, candidateId, mockId, Some(InProgress))
    ensures s.status == InProgress && s.candidateId == candidateId && s.mockId == mockId
    ensures db.sessions == old(db.sessions) + [s]
    ensures old(db.Linked()) && candidateId in CandidateIds(db.candidates) && mockId in MockIds(db.mocks) ==> db.Linked()
  {
    s := db.CreateMockSession(candidateId, mockId);
  }

  /** main.py:68-73: 404 exactly when the store finds no such session, and
      then nothing has changed; otherwise the Completed session with every
      answer it has ever been given, the new ones last. */
  method SubmitSession(db: Crud.Store, sessionId: int, items: seq<Crud.AnswerInput>)
    returns (r: Result<SessionView, HttpError>)
    requires db.Valid()
    modifies db`sessions, db`answers
    ensures db.Valid()
    ensures r.Err? <==> forall s :: s in old(db.sessions) ==> s.id != sessionId
    ensures r.Err? ==> r.error == NotFound("Session not found") && r.error.StatusCode() == 404
    ensures r.Err? ==> db.sessions == old(db.sessions) && db.answers == old(db.answers)
    ensures r.Ok? ==>
      var k := old(db.SessionIndex(sessionId)).value;
      && k < |old(db.sessions)|
      && r.value.session == old(db.sessions)[k].(status := Completed)
      && db.sessions == old(db.sessions)[k := r.value.session]
    ensures r.Ok? ==> r.value.session in db.sessions
    ensures r.Ok? ==> r.value.session.id == sessionId && r.value.session.status == Completed
    ensures r.Ok? ==> db.answers == old(db.answers) + Crud.AnswerRows(sessionId, items, |old(db.answers)| + 1)
    ensures r.Ok? ==> r.value.answers == Crud.AnswersOf(db.answers, sessionId)
    ensures r.Ok? ==> r.value.answers
                      == Crud.AnswersOf(old(db.answers), sessionId)
                         + Crud.AnswerRows(sessionId, items, |old(db.answers)| + 1)
    ensures r.Ok? ==> forall other :: other != sessionId ==> Crud.AnswersOf(db.answers, other) == Crud.AnswersOf(old(db.answers), other)
    ensures old(db.Linked()) && (forall it :: it in items ==> it.questionId in QuestionIds(db.questions)) ==> db.Linked()
  {
    ghost var at := db.SessionIndex(sessionId);
    var s := db.SubmitSession(sessionId, items);
    if s.None? {
      return Err(NotFound("Session not found"));
    }
    assert db.sessions[at.value] == s.value;
    r := Ok(SessionView(s.value, Crud.AnswersOf(db.answers, s.value.id)));
  }
}
