/** The data-access layer (crud.py) over an in-memory store: one table per
    record type, kept in insertion order, with the generated id of a row
    equal to its position plus one. Lookups are the first row that matches,
    listings are offset/limit windows, and every write appends rows or
    replaces one row in place. */
module Crud {
  import opened Common
  import opened Models
  import Allocation

  /** The store refuses a row whose unique column already holds the value. */
  datatype StoreError = IntegrityError(column: string)

  /** One item of a submission (schemas.py:91-93). */
  datatype AnswerInput = AnswerInput(questionId: int, candidateAnswer: Option<string>)

  /** The ids of a list of questions, in order: the mock_questions rows a
      mock gets. */
  function QuestionIdsOf(qs: seq<Question>): seq<int>
  {
    seq(|qs|, i requires 0 <= i < |qs| => qs[i].id)
  }

  /** A mock's association rows name exactly its questions, only questions
      of the table they were taken from, and none twice when the questions
      repeat no id. */
  lemma AssociationRows(qs: seq<Question>, table: seq<Question>)
    ensures |QuestionIdsOf(qs)| == |qs|
    ensures forall x :: x in QuestionIdsOf(qs) <==> exists q :: q in qs && q.id == x
    ensures (forall q :: q in qs ==> q in table) ==> forall x :: x in QuestionIdsOf(qs) ==> x in QuestionIds(table)
    ensures Allocation.DistinctIds(qs) ==>
              forall i, j :: 0 <= i < j < |qs| ==> QuestionIdsOf(qs)[i] != QuestionIdsOf(qs)[j]
  {
    var r := QuestionIdsOf(qs);
    forall x | x in r ensures exists q :: q in qs && q.id == x {
      var i :| 0 <= i < |r| && r[i] == x;
      assert qs[i] in qs;
    }
    forall q | q in qs ensures q.id in r {
      var i :| 0 <= i < |qs| && qs[i] == q;
      assert r[i] == q.id;
    }
  }

  /** The answer rows a submission adds, ids counting up from `firstId`:
      one per item, in order, owned by the session and not yet graded. */
  function AnswerRows(sessionId: int, items: seq<AnswerInput>, firstId: int): (r: seq<SessionAnswer>)
    ensures |r| == |items|
    ensures forall j :: 0 <= j < |r| ==> r[j].questionId == items[j].questionId && r[j].candidateAnswer == items[j].candidateAnswer
    ensures forall a :: a in r ==> a.mockSessionId == sessionId && a.correctness.None?
  {
    seq(|items|, j requires 0 <= j < |items| =>
      NewSessionAnswer(firstId + j, sessionId, items[j].questionId, items[j].candidateAnswer))
  }

  /** A session's `answers` relationship: its answer rows in table order. */
  function AnswersOf(answers: seq<SessionAnswer>, sessionId: int): (r: seq<SessionAnswer>)
    ensures forall a :: a in r <==> a in answers && a.mockSessionId == sessionId
  {
    if |answers| == 0 then []
    else (if answers[0].mockSessionId == sessionId then [answers[0]] else [])
         + AnswersOf(answers[1..], sessionId)
  }

  /** Appending rows appends their share to each session's answers. */
  lemma {:induction false} AnswersOfAppend(a: seq<SessionAnswer>, b: seq<SessionAnswer>, sessionId: int)
    ensures AnswersOf(a + b, sessionId) == AnswersOf(a, sessionId) + AnswersOf(b, sessionId)
  {
    if |a| == 0 {
      assert a + b == b;
    } else {
      assert (a + b)[0] == a[0];
      assert (a + b)[1..] == a[1..] + b;
      AnswersOfAppend(a[1..], b, sessionId);
    }
  }

  /** A submission's rows all belong to the submitted session, and to no
      other. */
  lemma {:induction false} AnswersOfRows(sessionId: int, items: seq<AnswerInput>, firstId: int, other: int)
    ensures AnswersOf(AnswerRows(sessionId, items, firstId), sessionId) == AnswerRows(sessionId, items, firstId)
    ensures other != sessionId ==> AnswersOf(AnswerRows(sessionId, items, firstId), other) == []
  {
    if |items| > 0 {
      var rows := AnswerRows(sessionId, items, firstId);
      assert rows[1..] == AnswerRows(sessionId, items[1..], firstId + 1);
      AnswersOfRows(sessionId, items[1..], firstId + 1, other);
    }
  }

  class Store {
    var techStacks: seq<TechStack>
    var questions: seq<Question>
    var mocks: seq<Mock>
    var candidates: seq<Candidate>
    var sessions: seq<MockSession>
    var answers: seq<SessionAnswer>

    /** Primary keys and the unique columns of models.py:27 and 58. */
    ghost predicate Valid()
      reads this
    {
      && StackKeys(techStacks) && QuestionKeys(questions) && MockKeys(mocks)
      && CandidateKeys(candidates) && SessionKeys(sessions) && AnswerKeys(answers)
      && UniqueStackNames(techStacks) && UniqueEmails(candidates)
    }

    /** Every foreign reference names an existing row. The store does not
        enforce this; the lemmas on each write say when it survives. */
    ghost predicate Linked()
      reads this
    {
      ReferencesResolve(techStacks, questions, mocks, candidates, sessions, answers)
    }

    constructor ()
      ensures Valid() && Linked()
      ensures techStacks == [] && questions == [] && mocks == []
      ensures candidates == [] && sessions == [] && answers == []
    {
      techStacks, questions, mocks := [], [], [];
      candidates, sessions, answers := [], [], [];
    }

    /** crud.py:8-9. */
    function GetCandidate(id: int): (r: Option<Candidate>)
      reads this
      ensures r.Some? ==> r.value in candidates && r.value.id == id
      ensures r.None? <==> forall c :: c in candidates ==> c.id != id
      ensures Valid() ==> (r.Some? <==> 1 <= id <= |candidates|)
    {
      match FirstIndex(candidates, (c: Candidate) => c.id == id)
      case Some(i) => Some(candidates[i])
      case None =>
        assert 1 <= id <= |candidates| ==> candidates[id - 1] in candidates;
        None
    }

    /** crud.py:12-13. */
    function GetCandidates(skip: nat := 0, limit: nat := 100): (r: seq<Candidate>)
      reads this
      ensures |r| == if skip >= |candidates| then 0 else Min(limit, |candidates| - skip)
      ensures forall i :: 0 <= i < |r| ==> r[i] == candidates[skip + i]
    {
      Page(candidates, skip, limit)
    }

    /** crud.py:16-21, with the unique email column of models.py:58: only
        the name and email are stored; the optional profile fields start
        empty. */
    method CreateCandidate(name: string, email: string) returns (r: Result<Candidate, StoreError>)
      requires Valid()
      modifies this`candidates
      ensures Valid()
      ensures r.Err? <==> exists c :: c in old(candidates) && c.email == email
      ensures r.Err? ==> candidates == old(candidates)
      ensures r.Ok? ==> r.value == Candidate(|old(candidates)| + 1, name, email, None, None, None)
      ensures r.Ok? ==> candidates == old(candidates) + [r.value]
      ensures old(Linked()) ==> Linked()
    {
      var clash := FirstIndex(candidates, (c: Candidate) => c.email == email);
      if clash.Some? {
        return Err(IntegrityError("candidates.email"));
      }
      var c := Candidate(|candidates| + 1, name, email, None, None, None);
      assert CandidateIds(candidates + [c]) == CandidateIds(candidates) + {c.id};
      candidates := candidates + [c];
      r := Ok(c);
    }

    /** With the unique name column, a stored stack's name finds that very
        stack. */
    lemma NameFindsStack(t: TechStack)
      requires Valid() && t in techStacks
      ensures GetTechStackByName(t.name) == Some(t)
    {
      var found := GetTechStackByName(t.name).value;
      var i :| 0 <= i < |techStacks| && techStacks[i] == t;
      var j :| 0 <= j < |techStacks| && techStacks[j] == found;
      if i < j || j < i {
        assert false;
      }
    }

    /** When every reference resolves, a stored session's candidate and mock
        are found by their lookups, and so is an answer's session. */
    lemma ReferencesFound(s: MockSession, a: SessionAnswer)
      requires Linked()
      ensures s in sessions ==> GetCandidate(s.candidateId).Some? && GetMock(s.mockId).Some?
      ensures a in answers ==> SessionIndex(a.mockSessionId).Some?
    {
    }

    /** crud.py:24-25. */
    function GetTechStack(id: int): (r: Option<TechStack>)
      reads this
      ensures r.Some? ==> r.value in techStacks && r.value.id == id
      ensures r.None? <==> forall t :: t in techStacks ==> t.id != id
      ensures Valid() ==> (r.Some? <==> 1 <= id <= |techStacks|)
    {
      match FirstIndex(techStacks, (t: TechStack) => t.id == id)
      case Some(i) => Some(techStacks[i])
      case None =>
        assert 1 <= id <= |techStacks| ==> techStacks[id - 1] in techStacks;
        None
    }

    /** crud.py:27-28. */
    function GetTechStackByName(name: string): (r: Option<TechStack>)
      reads this
      ensures r.Some? ==> r.value in techStacks && r.value.name == name
      ensures r.None? <==> forall t :: t in techStacks ==> t.name != name
    {
      match FirstIndex(techStacks, (t: TechStack) => t.name == name)
      case Some(i) => Some(techStacks[i])
      case None => None
    }

    /** crud.py:30-31. */
    function GetTechStacks(skip: nat := 0, limit: nat := 100): (r: seq<TechStack>)
      reads this
      ensures |r| == if skip >= |techStacks| then 0 else Min(limit, |techStacks| - skip)
      ensures forall i :: 0 <= i < |r| ==> r[i] == techStacks[skip + i]
    {
      Page(techStacks, skip, limit)
    }

    /** crud.py:33-38, with the unique name column of models.py:27. */
    method CreateTechStack(name: string) returns (r: Result<TechStack, StoreError>)
      requires Valid()
      modifies this`techStacks
      ensures Valid()
      ensures r.Err? <==> exists t :: t in old(techStacks) && t.name == name
      ensures r.Err? ==> techStacks == old(techStacks)
      ensures r.Ok? ==> r.value == TechStack(|old(techStacks)| + 1, name)
      ensures r.Ok? ==> techStacks == old(techStacks) + [r.value]
      ensures old(Linked()) ==> Linked()
    {
      var clash := FirstIndex(techStacks, (t: TechStack) => t.name == name);
      if clash.Some? {
        return Err(IntegrityError("tech_stacks.name"));
      }
      var t := TechStack(|techStacks| + 1, name);
      assert StackIds(techStacks + [t]) == StackIds(techStacks) + {t.id};
      techStacks := techStacks + [t];
      r := Ok(t);
    }

    /** crud.py:40-45. The referenced stack is not checked. */
    method CreateQuestion(questionText: string, topic: Option<string>, idealAnswer: Option<string>, techStackId: int)
      returns (q: Question)
      requires Valid()
      modifies this`questions
      ensures Valid()
      ensures q == Question(|old(questions)| + 1, questionText, topic, idealAnswer, techStackId)
      ensures questions == old(questions) + [q]
      ensures old(Linked()) && techStackId in StackIds(techStacks) ==> Linked()
    {
      q := Question(|questions| + 1, questionText, topic, idealAnswer, techStackId);
      assert QuestionIds(questions + [q]) == QuestionIds(questions) + {q.id};
      questions := questions + [q];
    }

    /** crud.py:47-48. */
    function GetQuestions(skip: nat := 0, limit: nat := 100): (r: seq<Question>)
      reads this
      ensures |r| == if skip >= |questions| then 0 else Min(limit, |questions| - skip)
      ensures forall i :: 0 <= i < |r| ==> r[i] == questions[skip + i]
    {
      Page(questions, skip, limit)
    }

    /** crud.py:51-52. */
    function GetMocks(skip: nat := 0, limit: nat := 100): (r: seq<Mock>)
      reads this
      ensures |r| == if skip >= |mocks| then 0 else Min(limit, |mocks| - skip)
      ensures forall i :: 0 <= i < |r| ==> r[i] == mocks[skip + i]
    {
      Page(mocks, skip, limit)
    }

    /** crud.py:54-55. */
    function GetMock(id: int): (r: Option<Mock>)
      reads this
      ensures r.Some? ==> r.value in mocks && r.value.id == id
      ensures r.None? <==> forall m :: m in mocks ==> m.id != id
      ensures Valid() ==> (r.Some? <==> 1 <= id <= |mocks|)
    {
      match FirstIndex(mocks, (m: Mock) => m.id == id)
      case Some(i) => Some(mocks[i])
      case None =>
        assert 1 <= id <= |mocks| ==> mocks[id - 1] in mocks;
        None
    }

    /** crud.py:58-88: a new mock whose questions are the allocation's
        selection over the current question table; earlier mocks are left
        as they were. */
    method CreateMockFromStacks(name: string, description: Option<string>, stackIds: seq<int>, numQuestions: nat)
      returns (m: Mock, ghost draws: seq<seq<nat>>)
      requires Valid()
      modifies this`mocks
      ensures Valid()
      ensures mocks == old(mocks) + [m]
      ensures m.id == |old(mocks)| + 1 && m.name == name && m.description == description
      ensures |draws| == |stackIds| && Allocation.DrawsFit(Allocation.Pools(questions, stackIds), numQuestions, draws)
      ensures m.questionIds == QuestionIdsOf(Allocation.Selected(Allocation.Pools(questions, stackIds), draws))
      ensures |m.questionIds| <= numQuestions
      ensures 0 < |stackIds|
              && (forall i :: 0 <= i < |stackIds| ==> Allocation.Target(numQuestions, |stackIds|, i) <= |Allocation.StackPool(questions, stackIds[i])|)
              ==> |m.questionIds| == numQuestions
      ensures 0 < |stackIds|
              && (exists i :: 0 <= i < |stackIds| && |Allocation.StackPool(questions, stackIds[i])| < Allocation.Target(numQuestions, |stackIds|, i))
              ==> |m.questionIds| < numQuestions
      ensures (forall i, j :: 0 <= i < j < |stackIds| ==> stackIds[i] != stackIds[j])
              ==> forall i, j :: 0 <= i < j < |m.questionIds| ==> m.questionIds[i] != m.questionIds[j]
      ensures old(Linked()) ==> Linked()
    {
      var selected;
      selected, draws := Allocation.SelectQuestions(questions, stackIds, numQuestions);
      m := Mock(|mocks| + 1, name, description, QuestionIdsOf(selected));
      assert Allocation.DistinctIds(questions);
      AssociationRows(selected, questions);
      assert MockIds(mocks + [m]) == MockIds(mocks) + {m.id};
      mocks := mocks + [m];
    }

    /** crud.py:90-99: the new session starts In Progress; neither the
        candidate nor the mock is checked. */
    method CreateMockSession(candidateId: int, mockId: int) returns (s: MockSession)
      requires Valid()
      modifies this`sessions
      ensures Valid()
      ensures s == NewMockSession(|old(sessions)| + 1, candidateId, mockId, Some(InProgress))
      ensures s.status == InProgress
      ensures sessions == old(sessions) + [s]
      ensures old(Linked()) && candidateId in CandidateIds(candidates) && mockId in MockIds(mocks) ==> Linked()
    {
      s := NewMockSession(|sessions| + 1, candidateId, mockId, Some(InProgress));
      assert SessionIds(sessions + [s]) == SessionIds(sessions) + {s.id};
      sessions := sessions + [s];
    }

    /** The session lookup of crud.py:102. */
    function SessionIndex(id: int): (r: Option<nat>)
      reads this
      ensures r.Some? ==> r.value < |sessions| && sessions[r.value].id == id
      ensures r.Some? ==> forall j :: 0 <= j < r.value ==> sessions[j].id != id
      ensures r.None? <==> forall s :: s in sessions ==> s.id != id
    {
      FirstIndex(sessions, (s: MockSession) => s.id == id)
    }

    /** The loop of crud.py:106-108: one answer row per item, in order,
        with correctness unset. */
    method AddAnswers(sessionId: int, items: seq<AnswerInput>)
      modifies this`answers
      ensures answers == old(answers) + AnswerRows(sessionId, items, |old(answers)| + 1)
    {
      for i := 0 to |items|
        invariant answers == old(answers) + AnswerRows(sessionId, items[..i], |old(answers)| + 1)
      {
        var item := items[i];
        answers := answers + [NewSessionAnswer(|answers| + 1, sessionId, item.questionId, item.candidateAnswer)];
        assert AnswerRows(sessionId, items[..i + 1], |old(answers)| + 1)
            == AnswerRows(sessionId, items[..i], |old(answers)| + 1)
               + [NewSessionAnswer(|old(answers)| + 1 + i, sessionId, item.questionId, item.candidateAnswer)];
      }
      assert items[..|items|] == items;
    }

    /** crud.py:101-113: nothing changes for an unknown session; otherwise
        one answer row per item is appended in order and the session is
        marked Completed, whatever its status was. */
    method SubmitSession(sessionId: int, items: seq<AnswerInput>) returns (r: Option<MockSession>)
      requires Valid()
      modifies this`sessions, this`answers
      ensures Valid()
      ensures r.None? <==> old(SessionIndex(sessionId)).None?
      ensures r.None? ==> sessions == old(sessions) && answers == old(answers)
      ensures r.Some? ==>
        var k := old(SessionIndex(sessionId)).value;
        && k < |old(sessions)|
        && r.value == old(sessions)[k].(status := Completed)
        && sessions == old(sessions)[k := r.value]
      ensures r.Some? ==> answers == old(answers) + AnswerRows(sessionId, items, |old(answers)| + 1)
      ensures r.Some? ==>
        AnswersOf(answers, sessionId) == AnswersOf(old(answers), sessionId) + AnswerRows(sessionId, items, |old(answers)| + 1)
      ensures r.Some? ==> forall other :: other != sessionId ==> AnswersOf(answers, other) == AnswersOf(old(answers), other)
      ensures old(Linked()) && (forall it :: it in items ==> it.questionId in QuestionIds(questions)) ==> Linked()
    {
      var found := SessionIndex(sessionId);
      if found.None? {
        return None;
      }
      var k := found.value;
      ghost var before := answers;
      ghost var linked := Linked();
      AddAnswers(sessionId, items);
      var rows := AnswerRows(sessionId, items, |before| + 1);
      RowsKeepKeys(before, sessionId, items);
      CompletingKeepsSessions(sessions, k);
      var updated := sessions[k].(status := Completed);
      if linked && (forall it :: it in items ==> it.questionId in QuestionIds(questions)) {
        SubmitKeepsReferences(techStacks, questions, mocks, candidates, sessions, before, k, items);
      }
      sessions := sessions[k := updated];
      r := Some(updated);
      AnswersOfAppend(before, rows, sessionId);
      forall other | other != sessionId
        ensures AnswersOf(answers, other) == AnswersOf(before, other)
      {
        AnswersOfAppend(before, rows, other);
        AnswersOfRows(sessionId, items, |before| + 1, other);
      }
      AnswersOfRows(sessionId, items, |before| + 1, sessionId);
    }
  }

  /** New answer rows numbered on from the table keep ids equal to
      positions. */
  lemma RowsKeepKeys(answers: seq<SessionAnswer>, sessionId: int, items: seq<AnswerInput>)
    requires AnswerKeys(answers)
    ensures AnswerKeys(answers + AnswerRows(sessionId, items, |answers| + 1))
  {
  }

  /** Marking a session Completed keeps every session id where it was. */
  lemma CompletingKeepsSessions(sessions: seq<MockSession>, k: nat)
    requires k < |sessions|
    ensures SessionIds(sessions[k := sessions[k].(status := Completed)]) == SessionIds(sessions)
    ensures SessionKeys(sessions) ==> SessionKeys(sessions[k := sessions[k].(status := Completed)])
  {
    var updated := sessions[k := sessions[k].(status := Completed)];
    forall x | x in SessionIds(updated) ensures x in SessionIds(sessions) {
      var s :| s in updated && s.id == x;
      var j :| 0 <= j < |updated| && updated[j] == s;
      assert sessions[j] in sessions && sessions[j].id == x;
    }
    forall x | x in SessionIds(sessions) ensures x in SessionIds(updated) {
      var s :| s in sessions && s.id == x;
      var j :| 0 <= j < |sessions| && sessions[j] == s;
      assert updated[j] in updated && updated[j].id == x;
    }
  }

  /** A submission to an existing session whose items name existing
      questions leaves every reference resolving. */
  lemma SubmitKeepsReferences(
    stacks: seq<TechStack>, questions: seq<Question>, mocks: seq<Mock>,
    candidates: seq<Candidate>, sessions: seq<MockSession>, answers: seq<SessionAnswer>,
    k: nat, items: seq<AnswerInput>)
    requires ReferencesResolve(stacks, questions, mocks, candidates, sessions, answers)
    requires k < |sessions|
    requires forall it :: it in items ==> it.questionId in QuestionIds(questions)
    ensures ReferencesResolve(stacks, questions, mocks, candidates,
              sessions[k := sessions[k].(status := Completed)],
              answers + AnswerRows(sessions[k].id, items, |answers| + 1))
  {
    var rows := AnswerRows(sessions[k].id, items, |answers| + 1);
    CompletingKeepsSessions(sessions, k);
    assert sessions[k] in sessions;
    forall a | a in rows
      ensures a.mockSessionId in SessionIds(sessions) && a.questionId in QuestionIds(questions)
    {
      var j :| 0 <= j < |rows| && rows[j] == a;
      assert items[j] in items;
    }
  }
}
