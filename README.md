# Mock-interview backend: a verified model

This project models the data layer and request guards of a mock-interview
service. The service holds these records:

- tech stacks;
- the questions that belong to each stack;
- mocks, which are named question sets;
- candidates;
- mock sessions, which are one candidate's attempt at one mock;
- the answers given in a session.

The core modelled here has three parts:

- **Mock generation** (`crud.py:58-88`). This is the one piece of real
  logic. A requested total of `n` questions is split across an ordered list
  of `k` stack ids:
  - the stack at position `i` gets `n / k` questions, plus one when
    `i < n % k`;
  - each stack contributes a random sample of `min(available, share)` of its
    own questions;
  - a short stack's shortfall is not moved to any other stack.

  `random.sample` is a nondeterministic choice of distinct positions in the
  stack's question list. Every property below holds for every such choice.
  A stack listed twice gets two independent draws, so the same question can
  be attached twice.
- **The store** (`crud.py`, `models.py`). This is a class `Crud.Store` with
  one sequence field per table:
  - each row's generated id is its position plus one;
  - lookups return the first row that matches;
  - listings return an offset/limit window;
  - the unique stack name and the unique candidate email are enforced as
    integrity errors;
  - foreign references are not enforced. `Linked()` states when they all
    resolve, and each write says when it keeps them resolving.
- **The handlers** (`main.py`):
  - a duplicate stack name gives 409;
  - a missing mock or session gives 404;
  - the list endpoints default to `skip = 0` and `limit = 100`;
  - everything else passes straight through to the store.

Modules:

- `Common`: Option, Result, first-match lookup, paging.
- `Models`: records, enums, table constraints.
- `Allocation`: shares, pools, draws, the selection loop and its lemmas.
- `AllocationScenarios`: worked examples.
- `Crud`: the store.
- `Api`: the handlers.

## Model

| member | source | states |
|---|---|---|
| Common.FirstIndex | crud.py:54-55 | A `.filter().first()` lookup: the result, when present, is the first position whose row matches. It is absent exactly when no row matches. |
| Common.Page | crud.py:12-13 | An `.offset(skip).limit(limit)` listing: its length is `min(limit, len - skip)`, or 0 past the end. Element `i` is row `skip + i`. |
| Common.PageWhole | main.py:42 | A window that starts at 0 and is at least as long as the table returns the whole table. |
| Models.ParseStatus | models.py:7-10 | Reads a status string back: the result's label is the input. It fails exactly when no status has that label. |
| Models.StatusLabelsRoundTrip | models.py:7-10 | The three statuses have distinct string values, and each parses back to itself. |
| Models.ParseCorrectness | models.py:12-15 | Reads a correctness string back: the result's label is the input. It fails exactly when no grade has that label. |
| Models.CorrectnessLabelsRoundTrip | models.py:12-15 | The three grades have distinct string values, and each parses back to itself. |
| Models.NewMockSession | models.py:66-76 | A new session keeps its candidate and mock. Its status is the given one, or Scheduled when none is given. The feedback columns start empty. |
| Models.NewSessionAnswer | models.py:82-89 | A new answer keeps its session, question and answer text. Correctness starts unset. |
| Models.SharedQuestionAllowed | models.py:18-21 | Two mocks that list the same question still satisfy every reference constraint, so the link is many-to-many. |
| Allocation.Target | crud.py:69-75 | Stack `i`'s share is `n / k` or one more, and exactly `n / k` from position `n % k` on. |
| Allocation.TargetsSumToTotal | crud.py:69-75 | For `k > 0`, the `k` per-stack shares add up to exactly `n`. |
| Allocation.TargetSumPrefix | crud.py:69-75 | The first `m` shares add up to `m * (n / k) + min(m, n % k)`. |
| Allocation.TargetsFair | crud.py:75 | Shares do not increase along the list and differ by at most one. A stack gets `n / k + 1` exactly when its position is below `n % k`. |
| Allocation.StackPool | crud.py:78 | A stack's pool is no longer than the question table. |
| Allocation.StackPoolMembers | crud.py:78 | A stack's pool holds exactly the table's questions whose stack id is that stack. |
| Allocation.SampleBound | crud.py:82 | `IsDraw`/`IsSample`, the outcomes of `random.sample(pool, k)`: a draw of `k` distinct positions into a population never has `k` above the population's size, and one exists for every `k` up to it. So a sample of `min(len(pool), limit)` always has an outcome. |
| Allocation.Pick | crud.py:82 | The sampled questions: one per drawn position, each a question of the pool. |
| Allocation.Quota | crud.py:82 | What a stack contributes: at most its pool's size and at most its share, and equal to one of them. |
| Allocation.StackPoolEmpty | crud.py:80 | A stack that no question names has an empty pool. |
| Allocation.StackPoolDistinct | crud.py:78 | A pool taken from a table without repeated ids has no repeated ids. |
| Allocation.SliceOfStack | crud.py:75-82 | Stack `i` contributes exactly `min(available, share)` questions. All of them are table questions of that stack, and none repeats when the table repeats no id. |
| Allocation.EmptyStackAddsNothing | crud.py:80 | A listed stack that has no questions adds nothing to the mock. |
| Allocation.SelectedLength | crud.py:74-82 | After `m` stacks, the selection is as long as their quotas added together. |
| Allocation.SlicePlacement | crud.py:74-82 | Stack `i`'s questions sit right after those of the stacks before it, whatever later stacks add. |
| Allocation.SelectedFromPools | crud.py:74-82 | Every selected question comes from the pool of one of the stacks drawn so far. |
| Allocation.SelectedDistinct | crud.py:74-82 | When no pool repeats an id and no two pools share one, the selection repeats no question. |
| Allocation.StackPoolsApart | crud.py:78 | Distinct stack ids over a table without repeated ids give pools that share no id. |
| Allocation.QuotaSumBounds | crud.py:75-82 | The quotas add up to at most the shares, and to exactly the shares when every stack holds at least its share. |
| Allocation.SelectedCount | crud.py:69-85 | The mock gets at most `n` questions. For a non-empty list it gets exactly `n` when every stack holds at least its share, and fewer than `n` when any stack is short. |
| Allocation.QuotaSumShort | crud.py:80-82 | One stack short of its share leaves the quotas below the shares: nothing is moved to other stacks. |
| Allocation.SelectQuestions | crud.py:66-82 | The selection loop. An empty list selects nothing. Otherwise the result is the stacks' draws concatenated in list order, each draw a legal `random.sample` outcome of its quota. The result has at most `n` questions: exactly `n` when no stack is short, fewer when one is. Every question is a table question of a listed stack. Nothing repeats when ids and stack ids are distinct. |
| Allocation.DrawStep | crud.py:80-82 | One more legal draw keeps the draws legal and appends that stack's sample to the selection. |
| Allocation.DrawsFitExtend | crud.py:82 | A draw of the next pool's quota extends a legal list of draws. |
| Allocation.SelectedExtend | crud.py:82 | Appending a draw appends its sample and leaves the earlier part of the selection unchanged. |
| Allocation.SelectedUpToStable | crud.py:74-82 | Later draws do not change what the earlier stacks selected. |
| Allocation.SelectionSummary | crud.py:66-85 | Gathers the bounds (exactly `n` when no stack is short, fewer when one is), membership and distinctness of a complete selection. |
| AllocationScenarios.TwoFullStacks | crud.py:69-82 | Two stacks, each holding at least its share of `n`, give exactly `n` questions split by share, evenly when `n` is even. |
| AllocationScenarios.TwoFromTwoStacks | test_main.py:83-115 | Stacks holding 2 and 1 questions, asked for 2, give one question from each and two in all. |
| AllocationScenarios.FourFromTwoStacks | crud.py:69-82 | Stacks holding 2 and 3 questions, asked for 4, give two from each. |
| AllocationScenarios.DuplicateStackRepeatsQuestion | crud.py:74-82 | Listing a one-question stack twice is a legal request and attaches that question twice. |
| AllocationScenarios.TenOverThree | crud.py:69-75 | The default ten questions over three stacks are shared 4, 3, 3. |
| Crud.AssociationRows | models.py:18-21 | A mock's association rows name exactly its questions, only questions of the table they came from, and none twice when the questions repeat no id. |
| Crud.AnswersOf | models.py:80 | A session's answers are exactly the answer rows that name that session. |
| Crud.AnswersOfAppend | models.py:80 | Appending rows to the answer table appends their share to each session's answers. |
| Crud.AnswerRows | crud.py:106-107 | One row per submitted item, in order, with the item's question and answer text; every row is owned by the session and ungraded. |
| Crud.AnswersOfRows | crud.py:106-108 | A submission's rows all belong to the submitted session and to no other. |
| Crud.Store.constructor | models.py:23-92 | An empty store satisfies every key, uniqueness and reference constraint. |
| Crud.Store.NameFindsStack | models.py:27 | `Valid`, the unique name column: a stored stack's name looks up that very stack. |
| Models.EmailIdentifiesCandidate | models.py:58 | The unique email column: two candidates with one email are the same row. |
| Crud.Store.ReferencesFound | models.py:70-71 | `Linked`/`ReferencesResolve`, the foreign keys of models.py:20, 38, 70-71 and 86-87: when they resolve, a session's candidate and mock and an answer's session are found by their lookups. |
| Crud.Store.GetCandidate | crud.py:8-9 | Returns a candidate with that id, or none exactly when no candidate has it. In a valid store it finds one exactly for ids 1 to the row count. |
| Crud.Store.GetCandidates | crud.py:12-13 | The window of the candidate table from `skip`, at most `limit` rows. |
| Crud.Store.CreateCandidate | crud.py:16-21 | An email already in use is an integrity error, and the table is unchanged. Otherwise exactly one candidate is appended with the next id, the given name and email, and empty profile fields. Keys, uniqueness and references are kept. |
| Crud.Store.GetTechStack | crud.py:24-25 | Returns a stack with that id, or none exactly when no stack has it. In a valid store it finds one exactly for ids 1 to the row count. |
| Crud.Store.GetTechStackByName | crud.py:27-28 | Returns a stack with that name, or none exactly when no stack has it. |
| Crud.Store.GetTechStacks | crud.py:30-31 | The window of the stack table from `skip`, at most `limit` rows. |
| Crud.Store.CreateTechStack | crud.py:33-38 | A name already in use is an integrity error, and the table is unchanged. Otherwise exactly one stack is appended with the next id and that name. Keys, uniqueness and references are kept. |
| Crud.Store.CreateQuestion | crud.py:40-45 | Exactly one question is appended with the next id and the given fields. The stack is not checked; references stay resolved when it exists. |
| Crud.Store.GetQuestions | crud.py:47-48 | The window of the question table from `skip`, at most `limit` rows. |
| Crud.Store.GetMocks | crud.py:51-52 | The window of the mock table from `skip`, at most `limit` rows. |
| Crud.Store.GetMock | crud.py:54-55 | Returns a mock with that id, or none exactly when no mock has it. In a valid store it finds one exactly for ids 1 to the row count. |
| Crud.Store.CreateMockFromStacks | crud.py:58-88 | Exactly one mock is appended with the next id, the given name and description, and the ids of a legal allocation over the current question table. It has at most `n` questions: exactly `n` when no listed stack is short, fewer when one is. With distinct stack ids no question is attached twice. Earlier mocks are untouched and references stay resolved. |
| Crud.Store.CreateMockSession | crud.py:90-99 | Exactly one session is appended with the next id, the given candidate and mock, and status In Progress. Neither reference is checked. |
| Crud.Store.SessionIndex | crud.py:102 | The position of a session with that id with none before it, or none exactly when there is none. |
| Crud.Store.AddAnswers | crud.py:106-108 | Appends one answer row per item, in input order, numbered on from the table, with correctness unset. |
| Crud.Store.SubmitSession | crud.py:101-113 | For an unknown id: none, and nothing changes. Otherwise one answer per item is appended in order. The session is set to Completed whatever its status was, with every other field and every other session unchanged. Its answers gain exactly the new rows; no other session's answers change. |
| Crud.RowsKeepKeys | crud.py:106-108 | New answer rows keep every answer id equal to its position plus one. |
| Crud.CompletingKeepsSessions | crud.py:110 | Completing a session keeps the set of session ids and their keys. |
| Crud.SubmitKeepsReferences | crud.py:101-113 | A submission whose items name existing questions keeps every reference resolving. |
| Api.CreateTechStack | main.py:34-39 | 409 exactly when the name is in use, and the store is unchanged. Otherwise exactly one stack with that name is added, and a default listing of at most 100 stacks shows it. |
| Api.LastRowListed | main.py:41-43 | With the default window, the newest stack of a table of at most 100 is listed. |
| Api.ReadTechStacks | main.py:41-43 | At most `limit` stacks, all from the table. With the defaults, the whole table when it has at most 100 rows. |
| Api.CreateQuestion | main.py:45-47 | Passes through to the store, with no error of its own: exactly one question with the next id and the given fields is appended, and references stay resolved when its stack exists. |
| Api.ReadQuestions | main.py:49-51 | At most `limit` questions, all from the table. With the defaults, the whole table when it has at most 100 rows. |
| Api.GenerateMock | main.py:53-55 | Passes through to mock generation, with ten questions by default: the next id, a legal allocation, exactly `n` questions when no stack is short and fewer when one is, without an error. No question twice for distinct stacks; references stay resolved. |
| Api.ReadMock | main.py:57-62 | 404 exactly when no mock has the id. Otherwise the stored mock with that id, unchanged. |
| Api.CreateSession | main.py:64-66 | Passes through to the store: exactly one new In Progress session with the next id for the given candidate and mock; references stay resolved when both exist. |
| Api.SubmitSession | main.py:68-73 | 404 exactly when no session has the id, and nothing changes. Otherwise the answer table gains one row per item, in order; the session becomes Completed with every other field and every other session unchanged; the response carries its earlier answers followed by the new ones, and no other session's answers change. |

## Left out

- Persistence plumbing is not modelled:
  - the SQLAlchemy session, commit and refresh calls, the engine and `get_db`;
  - the separate commit of the empty mock before its questions are attached (`crud.py:62`).

  Each write is modelled as one atomic update of the store.
- The server-side timestamps `created_at` and `session_date` are not modelled. They come from the database clock.
- FastAPI routing, CORS, pydantic validation (including `EmailStr`) and response serialization are not modelled. In particular, the nested candidate, mock and question objects of a response are not modelled. `Api.SessionView` keeps only the session row and its answers.
- Allocation.SelectQuestions, Crud.Store.CreateMockFromStacks and Api.GenerateMock take `num_questions` as a `nat`, so a missing or negative count is outside the model. The source does not always fail on such a count:
  - `None` raises a `TypeError` at `crud.py:69` only for a non-empty stack list. An empty list returns the mock with no questions at `crud.py:66-67`, before line 69 runs.
  - A negative count gives shares under Python's floor division; for example, `-1` over two stacks gives shares 0 and -1. `random.sample` raises only when a stack with a negative share has questions. Otherwise the source creates the mock with what the other shares drew, possibly nothing.
- Crud.Store.GetCandidates, Crud.Store.GetTechStacks, Crud.Store.GetQuestions, Crud.Store.GetMocks, Api.ReadTechStacks and Api.ReadQuestions take `nat` skip and limit, while main.py:42 and 50 accept any `int`. The engine's handling of negative values is not modelled.
- Allocation.SelectQuestions: the probability distribution of `random.sample` is not modelled. Only which outcomes are possible is captured.
- Crud.Store.CreateMockFromStacks: the relationship assignment at `crud.py:85` may collapse a question attached twice into one association row, depending on the ORM. The model keeps the list as selected, repeats included.
- Foreign keys are not enforced by the code. The reference constraint is a separate predicate (`Linked`), and each write states when it keeps it.
- No row is ever deleted. Ids are modelled as positions plus one, as an auto-increment key assigns them.
- `read_root` (`main.py:30-32`) returns a fixed greeting and is not modelled.
- `read_excel.py`, `seed.py` and the frontend are not part of this model.
- Candidate creation exists only in `crud.py`; `main.py` exposes no candidate endpoint.
