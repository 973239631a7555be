# Trivia question bank backend, modelled in Dafny

This project models the request handlers of a small trivia backend
(`backend/flaskr/__init__.py`). The backend serves a bank of questions grouped
into categories. It lists categories, lists questions ten to a page, deletes
and creates questions, searches question text, lists one category's questions,
and serves a quiz question the player has not seen yet. Handlers that fail
abort with an HTTP status. One of four error handlers turns that status into a
fixed `{success: false, error, message}` body.

The database is an in-memory model. The Question and Category tables are
sequences in the order `query.all()` returns them. The two handlers that change
the table (`delete_question`, `add_question`) are methods of the class
`Bank.QuestionBank`. Its fields are the Question table and the table's id sequence.
The read-only handlers are functions or methods from the tables and the
request fields to a `Response` (status and payload). The dictionary-building
`for` loops and the quiz's `while` loop are methods with loop invariants. Each
is proved against a specification function.

Modules:
- `Model`: rows, JSON scalars, status codes, payloads.
- `Errors`: the four error bodies.
- `Pagination`: Python slice normalisation and `paginate`.
- `Selection`: order-preserving filtering, the in-memory form of `filter_by(...).all()`.
- `Categories`: the `{id: type}` dictionary and `GET /categories`.
- `Listing`: `GET /questions` and `GET /categories/<id>/questions`.
- `Search`: `POST /questions/search`.
- `Quiz`: `POST /quizzes`.
- `Decimal`: decimal text of integers.
- `Bank`: delete and create.

The model follows the status codes as the code produces them. Three
behaviours of the code may surprise a reader:
- An empty category table answers 500, not 404. The `abort(404)` at line 62
  is raised inside the `try`, and `except Exception` catches it and aborts
  with 500.
- Search's `total_questions` is the size of the whole table, not the number
  of matches (line 194).
- Search results are paginated (line 193).

As in the code, deleting a missing id answers 422: the `abort(404)` is caught
by the bare `except`.

## Model

| member | source | states |
|---|---|---|
| `Errors.ErrorResponse` | backend/flaskr/__init__.py:278-312 | each of 400, 404, 500 and 422 yields a response with that status, `success` false, `error` equal to the status and a non-empty fixed message |
| `Pagination.PySlice` | backend/flaskr/__init__.py:17 | a Python slice takes only elements of the list; it takes at most `j - i` of them when both bounds have the same sign, and none when the end bound is 0 |
| `Pagination.Paginate` | backend/flaskr/__init__.py:9-19 | a page holds at most `QUESTIONS_PER_PAGE` (10) records, all drawn from the data, for every page number |
| `Pagination.PageOfPositive` | backend/flaskr/__init__.py:11-19 | for page >= 1 the page is exactly the records `(page-1)*10` up to `min(page*10, n)` in order, and it is empty exactly when `(page-1)*10 >= n` |
| `Pagination.PageOfNonPositive` | backend/flaskr/__init__.py:12-17 | page 0 is always empty; a negative page counts back from the end of the list, as Python's negative slice bounds do |
| `Pagination.FirstPageOfShortList` | backend/flaskr/__init__.py:11-19 | when there are at most ten records, page 1 is all of them |
| `Selection.Filter` | backend/flaskr/__init__.py:255 | a filtered query returns exactly the rows satisfying the condition, no more rows than the table, and none when no row qualifies |
| `Categories.CategoryMapKeys` | backend/flaskr/__init__.py:57-59 | the dictionary has exactly one key per category id in the table |
| `Categories.CategoryMapTypes` | backend/flaskr/__init__.py:57-59 | with unique category ids, each id maps to its own row's `type` |
| `Categories.BuildCategoryMap` | backend/flaskr/__init__.py:90-92 | the loop builds the dictionary of the rows in order: its keys are the category ids, and with unique ids each maps to its row's type |
| `Categories.GetAllCategories` | backend/flaskr/__init__.py:52-70 | an empty table answers the 500 error body; otherwise 200 with the dictionary whose keys are exactly the category ids |
| `Listing.GetQuestions` | backend/flaskr/__init__.py:83-102 | 404 exactly when the requested page is empty (for page >= 1, exactly when `(page-1)*10 >= n`); otherwise the page, `total_questions` equal to the whole table's size on every page, and the full category dictionary |
| `Listing.QuestionsByCategoryAsWritten` | backend/flaskr/__init__.py:213-221 | an unknown category answers 422 before any question filtering; a known one answers 500, because `Question.quert` raises |
| `Listing.QuestionsByCategory` | backend/flaskr/__init__.py:213-229 | 422 exactly when no category has the id; on 200, the page holds only that category's questions, `total_questions` counts all of them, and `current_category` is the category's type |
| `Listing.QuertTypoFailsEveryKnownCategory` | backend/flaskr/__init__.py:221 | for every category present once, the code as written answers 500 where the intended handler answers 200 |
| `Listing.QuertTypoExample` | backend/flaskr/__init__.py:216-229 | with category 6 "Sports" and one question in it, the written handler answers 500 and the intended one returns that question, a total of 1 and "Sports" |
| `Search.ContainsIff` | backend/flaskr/__init__.py:188 | the substring scan succeeds exactly when the term occurs at some position of the text (both directions) |
| `Search.MatchesIff` | backend/flaskr/__init__.py:188 | a row is found exactly when it is in the table and its lower-cased question text contains the lower-cased term |
| `Search.SearchIgnoresTermCase` | backend/flaskr/__init__.py:188 | a term and its lower-case form find the same rows |
| `Search.SearchQuestions` | backend/flaskr/__init__.py:178-203 | 422 exactly when the term is absent or `''`; 404 exactly when a non-empty term matches no row; otherwise 200 with the requested page of matches and `total_questions` equal to the whole table's size |
| `Search.SearchReturnsAllMatches` | backend/flaskr/__init__.py:188-200 | a search whose N matches fit on page 1 returns exactly those N rows in table order |
| `Quiz.Pool` | backend/flaskr/__init__.py:252-255 | the pool is the whole table exactly when the id is the number 0; otherwise a row is in the pool exactly when its category equals the id as the query compares it, and the pool is absent when the query raises |
| `Quiz.TextZeroIsNotAllCategories` | backend/flaskr/__init__.py:252-255 | the text "0" is not the number 0: it selects the rows of category 0, not the whole table |
| `Quiz.TextIdIsNotSeen` | backend/flaskr/__init__.py:263 | an entry "5" given as text does not mark question 5 as seen, so it can be served |
| `Quiz.FirstUnseen` | backend/flaskr/__init__.py:257-266 | a question the rejection loop settles on is in the pool and its id is not among the previous questions |
| `Quiz.ExhaustedPoolNeverAnswers` | backend/flaskr/__init__.py:260-266 | when every pool question was seen, no sequence of draws ends the loop |
| `Quiz.UnseenDrawAnswers` | backend/flaskr/__init__.py:260-266 | the loop ends once a draw lands on an unseen question |
| `Quiz.PickUnseen` | backend/flaskr/__init__.py:257-266 | the loop's result is the specification's first unseen draw; a picked question is in the pool, is unseen, and is the last draw consumed |
| `Quiz.PlayQuiz` | backend/flaskr/__init__.py:242-271 | 400 when `previous_questions` or `quiz_category` is missing; 500 for a missing `id`, a category query that raises, or an empty pool; a returned question is in the table, its id is not among the numeric entries of `previous_questions`, and its category equals the id unless the id is the number 0; with every pool question seen, it never answers |
| `Quiz.HistoryQuizPicksSeven` | backend/flaskr/__init__.py:252-266 | with questions 5, 9 and 7 in category 4 and 5 and 9 seen, any answer is question 7 |
| `Decimal.ParseIntText` | backend/flaskr/__init__.py:150-158 | reading back the decimal text of an integer gives that integer |
| `Bank.RowsWithIdCount` | backend/flaskr/__init__.py:114-117 | with unique ids, `one_or_none()` sees exactly one row when the id is present |
| `Bank.WithoutIdKeepsUnique` | backend/flaskr/__init__.py:119 | deleting rows keeps question ids unique |
| `Bank.WithoutIdRemovesOne` | backend/flaskr/__init__.py:113-126 | with unique ids, deleting a present id removes exactly one row |
| `Bank.AddThenDeleteRestores` | backend/flaskr/__init__.py:119 | deleting the id of a row just appended gives back the table as it was before the append |
| `Decimal.IntColumn` | backend/flaskr/__init__.py:150-158 | a value stored in an integer column lies in the 32-bit range, and a JSON number in that range is stored as it is |
| `Bank.NewRow` | backend/flaskr/__init__.py:140-166 | a body with any of the four fields missing or `''` is refused; a refusal means an empty field or an integer column the value cannot fill; an accepted row holds the fields as the columns store them |
| `Bank.NewRowAcceptsDraft` | backend/flaskr/__init__.py:142-163 | every draft with non-empty texts and 32-bit numbers is stored as sent, with the numbers sent either as JSON numbers or as decimal text |
| `Bank.MissingDifficultyRefused` | backend/flaskr/__init__.py:144-148 | a body without `difficulty` is refused |
| `Bank.QuestionBank.DeleteQuestion` | backend/flaskr/__init__.py:111-126 | a present id removes exactly that row and answers 200 with `deleted == id`, so the count drops by one; a missing id answers 422 and changes nothing; the other rows are unchanged; ids stay unique |
| `Bank.QuestionBank.AddQuestion` | backend/flaskr/__init__.py:138-166 | a refused body answers 422 and changes nothing; otherwise exactly one row with the next id is appended and the answer is 201; ids stay unique |

## Left out

- Flask application setup, routing, CORS and the `after_request` headers (lines 21-45) are not modelled. The route string `'questions/search'` at line 178 lacks its leading slash. Werkzeug refuses such a rule when it is registered, so the application could not be created as written. Only the search logic is modelled, not this routing failure.
- The ORM and the `models` module are not part of this model. They provide `setup_db`, `insert`, `delete`, `format` and `ilike`. The tables are sequences, `format()` is the row itself, and connection or transaction failures are not modelled. A failed insert leaves the session needing a rollback; that is not modelled either.
- JSON parsing and serialisation are not modelled. The `type=int` parsing of `page` is not modelled: `page` is an already-parsed integer. Request fields are JSON strings or integers; `null`, booleans, floats, lists and objects in those fields are not modelled. `quiz_category` is modelled only as an object with an optional `id`, and `previous_questions` only as a list.
- `random.randint` is an external generator, replaced by a finite sequence of draws. A draw `d` picks index `d % |pool|`. Uniformity is not modelled. A loop that has not ended once the draws run out is reported as `StillDrawing`. Its non-termination is stated by `Quiz.ExhaustedPoolNeverAnswers`.
- `ilike('%term%')` is modelled as a substring test after ASCII lower-casing. Non-ASCII case folding, the SQL wildcards `%` and `_` inside the term, and the backslash, which is LIKE's escape character, are not modelled. For example, the term `a\b` matches the text "ab" in the database, and the model does not capture that.
- The database's conversion of inserted values is modelled as follows. An integer into a text column becomes its decimal text. Text into an integer column must be an optional sign and digits. Integer columns hold 32 bits. Surrounding whitespace, which the database also accepts, and text column length limits are not modelled. Whether a new question's category exists is not checked, as in the code.
- The id sequence does not advance on a failed insert.
- Quiz.PlayQuiz: `quiz_category['id']` and the entries of `previous_questions` are JSON numbers or text. Other JSON values there are not modelled, such as a float `5.0`, which Python counts as equal to 5. Text reaches the category query as the database reads it into an integer.
- `backend/test_flaskr.py` is not modelled. It expects messages that differ from the code, and the code's messages are modelled.

## Findings

| source | as written | input that shows it | evidently intended | confidence | as-written member | corrected member |
|---|---|---|---|---|---|---|
| backend/flaskr/__init__.py:221 | `Question.quert.filter_by(category=id)` raises `AttributeError` after the category check passes, so every known category answers 500 | `GET /categories/6/questions` with category 6 "Sports" present | `Question.query.filter_by(category=id)`: the page of that category's questions, their count and the category's type | high (not executed) | `Listing.QuestionsByCategoryAsWritten` | `Listing.QuestionsByCategory` |
