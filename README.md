# Trivia API request handlers, modelled in Dafny

This project models the request-handling logic of the trivia backend
(`backend/flaskr/__init__.py`) without Flask and SQLAlchemy. The backend lists
categories, pages through questions, searches them, creates and deletes them,
and serves a quiz that draws a random question the player has not seen yet.

The database is a `TriviaStore` object holding the two tables as sequences:
question rows `{id, question, answer, category, difficulty}` and category rows
`{id, type}` (the `type` column is called `kind`, because `type` is a Dafny
keyword). Every handler takes the already-parsed request and answers with a
`Response`, which is an HTTP status plus a JSON payload.

The model follows the source's own split:

- Pure parts are functions:
  - the page window, taken with Python's slice semantics;
  - the validation chain of `create_question`;
  - the filtering queries and the case-insensitive substring match;
  - the status→message table of the error handlers;
  - the search and by-category handlers, which contain no loop.
- Parts that loop or change state are methods:
  - the `for category in categories` loop (`Records.BuildCategoryMap`);
  - the handlers that use that loop (`GetCategories`, `GetQuestions`);
  - the quiz's `while found` resampling loop (`PlayQuiz`);
  - `CreateQuestion` and `DeleteQuestion`, which change the question table.

Modules:

- `Wrappers`: `Option`.
- `JsonValues`: JSON scalars and `dict.get`. It also holds Python's `str()`, used where the search term goes into the `ILIKE` pattern, and the database's reading of a value into a text or integer column.
- `Pagination`: `s[(page-1)*10 : (page-1)*10+10]` with CPython's bound adjustment. A negative bound counts from the end, then both bounds are clamped to `[0, len]`.
- `TextMatch`: `ILIKE '%term%'` as a case-insensitive substring test.
- `Records`: the rows, the primary-key invariants, filter/get/order-by queries and the category dictionary.
- `Responses`: payloads, `abort(code)` and the four error handlers.
- `TriviaApi`: the handlers and the `TriviaStore` class.

Some behaviour follows the code rather than what a client of these routes would expect:

- Page 0 always gives an empty window, so `GET /questions?page=0` answers 404.
- A negative page counts from the end. Page -1 is `questions[-20:-10]`, which is non-empty once there are more than ten questions.
- Search and by-category never answer 404 for an empty page. Search answers 404 only when nothing matches at all. By-category answers 200 with an empty list.
- Validation tests each field only for equality with `''`. A JSON `null`, `0` or `false` passes validation. A non-string search term passes too; Python's `str()` then renders it into the pattern, so `null` searches for `"None"`.
- An unknown category id gives 422, not 404.

## Model

| member | source | states |
|---|---|---|
| `Pagination.SliceBound` | backend/flaskr/__init__.py:55 | a slice bound ends up in `[0, len]`, and a bound already in range is kept |
| `Pagination.PySlice` | backend/flaskr/__init__.py:55 | `s[start:stop]` is the run of items from the adjusted start up to the adjusted stop, and is empty when the adjusted range is empty |
| `Pagination.PageWindow` | backend/flaskr/__init__.py:46-55 | for every page number, including 0 and negatives, the window holds at most 10 items, all from the list; the page number comes from `PageNumber`, which is 1 when the argument is absent |
| `Pagination.PageWindowEmptyIff` | backend/flaskr/__init__.py:55-58 | the window is empty exactly for page 0, a positive page starting at or past the end, or a negative page reaching back further than the list is long |
| `Pagination.PositivePageWindow` | backend/flaskr/__init__.py:47-55 | a positive page is the run `s[(page-1)*10 .. min(page*10, len)]` |
| `Pagination.NegativePageWindow` | backend/flaskr/__init__.py:47-55 | a negative page counts from the end; page -1 is `s[-20:-10]`, non-empty exactly when there are more than 10 items |
| `Pagination.FirstPagesArePrefix` | backend/flaskr/__init__.py:46-55 | pages 1..m one after another are exactly the first `min(10m, len)` items, so positive pages tile the list with no gap or overlap |
| `TextMatch.ContainsIff` | backend/flaskr/__init__.py:125-127 | the substring search succeeds exactly when the term occurs at some index of the text; `ContainsIgnoringCase`, the `ILIKE '%term%'` test, is this search on the lowered text and term |
| `TextMatch.LowerIdempotent` | backend/flaskr/__init__.py:126 | folding case twice is folding it once |
| `TextMatch.MatchIgnoresCase` | backend/flaskr/__init__.py:125-127 | the `ILIKE` match gives the same answer whatever the case of the term or of the text |
| `JsonValues.NatToDecimal` | backend/flaskr/__init__.py:126 | `str()` of a natural number is a non-empty digit string without a leading zero; `PyStr`, the f-string's `str()` of the search term, uses it for integers and writes `None`, `True`, `False` for the other scalars |
| `JsonValues.NatToDecimalValue` | backend/flaskr/__init__.py:126 | the digits `str()` writes denote the number itself |
| `JsonValues.IntColumnReadsRendering` | backend/flaskr/__init__.py:101-107 | an integer column reads the decimal string of an integer (e.g. `'1'` for `category`) as that integer; the column readers `TextColumn`, `IntColumn` and `ParseInt` it rests on are the approximation described under Left out |
| `Records.Filter` | backend/flaskr/__init__.py:156 | a filter query keeps exactly the rows satisfying its condition, never more often than the table holds them, and never adds rows |
| `Records.FilterCounts` | backend/flaskr/__init__.py:156 | each matching row appears in the result exactly as often as in the table and every other row not at all, so under the primary key `total_questions` is the number of matching rows |
| `Records.FilterConcat` | backend/flaskr/__init__.py:156 | filtering keeps table order: the matches of `a + b` are the matches of `a` followed by those of `b` |
| `Records.FindQuestion` | backend/flaskr/__init__.py:74 | `Question.query.get(id)` returns a row of the table with that key, and `None` exactly when no row has it |
| `Records.FindCategory` | backend/flaskr/__init__.py:151 | `one_or_none()` returns a row with that key, and `None` exactly when no category has it |
| `Records.FoundCategoryIsUnique` | backend/flaskr/__init__.py:151 | under the primary key, the row found is the only row with that key |
| `Records.WithoutAbsentId` | backend/flaskr/__init__.py:74-75 | deleting by a key no row has leaves the table as it was |
| `Records.WithoutIdRemovesOne` | backend/flaskr/__init__.py:74-75 | `WithoutId`, the table after `question.delete()`, removes exactly the row with that key and keeps all others in their order |
| `Records.RemovalKeepsIdsDistinct` | backend/flaskr/__init__.py:75 | removing a row keeps question ids distinct |
| `Records.AppendKeepsIdsDistinct` | backend/flaskr/__init__.py:107 | inserting a row under a fresh key keeps question ids distinct |
| `Records.InsertById` | backend/flaskr/__init__.py:50 | inserting one row into the ordered list adds exactly that row |
| `Records.InsertByIdSorted` | backend/flaskr/__init__.py:50 | inserting into an id-ordered list keeps it id-ordered |
| `Records.SortById` | backend/flaskr/__init__.py:50 | `order_by(Question.id)` is a permutation of the table, ordered by ascending id |
| `Records.SortByIdSameRows` | backend/flaskr/__init__.py:50-52 | the ordered list has the table's length and the same rows, so `total_questions` is the table size |
| `Records.CategoryDict` | backend/flaskr/__init__.py:34-36 | the categories dictionary has exactly the category ids as keys |
| `Records.CategoryDictLastWins` | backend/flaskr/__init__.py:35-36 | a key maps to the `type` of the last row with that id; later rows overwrite earlier ones |
| `Records.CategoryDictOfDistinct` | backend/flaskr/__init__.py:60-62 | with distinct ids every category id maps to its own `type` |
| `Records.CategoryDictOrderIrrelevant` | backend/flaskr/__init__.py:53 | with distinct ids the dictionary is the same whatever order the rows come in (`all()` vs `order_by(Category.id)`) |
| `Records.BuildCategoryMap` | backend/flaskr/__init__.py:34-36 | the `for` loop builds exactly the categories dictionary |
| `Responses.Abort` | backend/flaskr/__init__.py:205-235 | `abort(k)` answers with k's status, the same `error` code, k's fixed message and `success = false`, and dispatches back to k's handler; the status and message of each kind are the table `ErrorKind.Status`/`ErrorKind.Message` |
| `Responses.ErrorTableDistinct` | backend/flaskr/__init__.py:205-235 | the four handlers have distinct statuses and distinct messages |
| `TriviaApi.FirstBlankField` | backend/flaskr/__init__.py:87-99 | validation passes exactly when none of question, answer, difficulty, category reads as `''`; otherwise the reported field is blank and every field tested before it is not |
| `TriviaApi.MissingFieldIsBlank` | backend/flaskr/__init__.py:87-90 | a missing field and a field sent as `''` validate the same way |
| `TriviaApi.NewRecordKeepsValues` | backend/flaskr/__init__.py:100-107 | `NewRecord`, the row `Question(...).insert()` stores: a request with string texts and integer (or decimal-string) difficulty and category passes validation and stores exactly those values |
| `TriviaApi.SearchQuestions` | backend/flaskr/__init__.py:116-147 | 422 exactly for a blank term; 404 exactly when no question text contains the term case-insensitively; otherwise 200 with a page of at most 10 matches and `total_questions` equal to the number of matches |
| `TriviaApi.QuestionsByCategory` | backend/flaskr/__init__.py:149-170 | 422 exactly for an unknown category id; otherwise 200, even for an empty page, with at most 10 questions all in that category, their unsliced count, and that category's `type` |
| `TriviaApi.QuizPool` | backend/flaskr/__init__.py:181-186 | the pool is every question for category id 0, otherwise exactly the questions of that category |
| `TriviaApi.TriviaStore.GetCategories` | backend/flaskr/__init__.py:30-40 | 200 with a map whose keys are the category ids and which sends each id to its `type` |
| `TriviaApi.TriviaStore.GetQuestions` | backend/flaskr/__init__.py:44-69 | 404 exactly when the page window is empty; otherwise 200 with the window of the id-ordered questions, `total_questions` equal to the unsliced count, and the full category map |
| `TriviaApi.TriviaStore.DeleteQuestion` | backend/flaskr/__init__.py:71-81 | an existing id loses exactly its row, all others stay in order, answer 200; a missing id leaves the table unchanged, answer 422 |
| `TriviaApi.TriviaStore.CreateQuestion` | backend/flaskr/__init__.py:83-114 | a blank or missing field or a refused value gives 422 with the table unchanged; otherwise exactly one row with the request's values is appended, answer 201 |
| `TriviaApi.TriviaStore.PlayQuiz` | backend/flaskr/__init__.py:172-203 | 400 without `previous_questions` or `quiz_category`; 500 for an empty pool; a returned question is in the pool and not previously asked; when no pool question was asked the first draw is answered; when the whole pool was asked the loop never exits |

## Left out

- Flask routing and the `<int:id>` converter's 404 for a non-integer path: handlers receive an integer id.
- CORS and the `after_request` header injection: plain header I/O.
- JSON encoding and decoding. Handlers take parsed values. A request without a JSON body, where `request.get_json()` returns `None` and the handler fails with 500, is not modelled.
- JSON floats, arrays and objects as field values are not modelled. In particular, `quiz_category` is always an object in the model, and `previous_questions` is always a list of integers.
- How the page argument is converted: `PageNumber` takes the result of `type=int`, with `None` when the argument is absent or does not convert.
- SQLAlchemy and the database. Tables are sequences, and `Question.format()` is taken to report the row's five columns; `models.py` is not part of this model. The key the database assigns to a new row is a parameter `newId`: any id not already in the table.
- TriviaApi.NewRecord: the database's reading of request values into columns is approximated. A text column accepts a JSON string. An integer column accepts a JSON integer, or a string of an optional sign and decimal digits. Every other value is treated as `insert()` raising, which gives 422. Whitespace in numeric strings, NULL columns, implicit casts of numbers to text, and other database errors on insert or delete are not modelled.
- The 500 path of `GET /categories`: it depends only on a database failure.
- The `%` and `_` wildcards of `ILIKE` inside a search term, and the backslash escape (`a\b` matches `ab`). Case folding covers ASCII letters only; the database's locale rules are not modelled.
- Row order of the queries without `ORDER BY` (`filter(...).all()` in search, `filter_by(category=id).all()` in by-category, `Question.query.all()` in the quiz) is unspecified by the database. The model uses table order, and `CreateQuestion` appends the new row last. Which matches land on which search or by-category page is therefore the model's choice, not the source's. Counts, membership and the 422/404/200 decisions do not depend on it.
- The distribution of `random.randint`: each draw is a free choice of index.
- TriviaApi.TriviaStore.PlayQuiz: the source's resampling loop has no bound. The model lets it redraw at most `maxRedraws` times and answers `None` while it is still drawing. The postcondition proves that an exhausted pool gives `None` for every bound, which is how the model shows non-termination.
- A `quiz_category` without an `id` key makes the source fail with `KeyError`, modelled as 500. A non-integer `id` is not modelled.
- `GET /questions` reads the categories ordered by id. The model uses table order; `Records.CategoryDictOrderIrrelevant` shows the map is the same.
