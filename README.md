# Trivia question service: a Dafny model

This project models the request handlers of a Flask back end that serves
trivia questions by category (`backend/flaskr/__init__.py`). The service can
list categories, list questions ten to a page, delete a question, create a
question, search the questions' text, list the questions of one category,
and pick the next question for a quiz. Each handler answers either its
success fields or an error: 404 ("not found") or 422 ("unprocessable entity").

The relational store behind the handlers is replaced here by an in-memory
one. It holds a sequence of `Question(id, question, answer, category,
difficulty)` rows, a sequence of `Category(id, type)` rows (the `type`
column is the field `kind`) and the next id the store hands out.

Modules, one per concern of the source file:

- `Outcomes` (outcomes.dfy): `Result` is either `Ok` with a handler's
  success fields or `Err` with `NotFound` or `Unprocessable`. The error
  handlers map these to the codes 404 and 422.
- `Text` (text.dfy): ASCII case folding, substring occurrence (the
  `ILIKE '%term%'` of search), and the decimal text of an integer (which an
  f-string gives a numeric search term).
- `Pagination` (pagination.dfy): `paginate_data`, with Python's slice
  semantics for every integer page, negative ones included.
- `Trivia` (trivia.dfy): the entities, with the store queries written as a
  `Criterion` plus `Select` (the `filter(...).all()` calls). It also holds
  the five read-only handlers, as functions of the store's rows.
- `TriviaStore` (store.dfy): the store as a class, with `questions`,
  `categories` and `nextId` (the id sequence). Its methods `CreateQuestion`
  and `DeleteQuestion` change the store in place.

Modelling choices:

- Request bodies are typed records whose fields are `Option<Scalar>`.
  `None` is a missing key. A `Scalar` is a JSON string or integer.
  `body.get(key, '')` is `Field`, which reads a missing key as `Str("")`.
- The `page` query argument is a `PageArg`: absent, not an integer, or a
  given integer. Only a given integer changes the default of 1.
- The store keeps its question rows in ascending id order (`Store.Valid`).
  So the `order_by(Question.id)` of the listing is the store's own order.
- The random index of the quiz is the caller's `pick`. It must lie in the
  candidates' range (`PickInRange`), as `random.randrange(0, n)` does.
- A quiz body that is not an object, has no `quiz_category`, or has a
  `quiz_category` that is not an object is `QuizBody(None, ...)`. All of
  these raise inside the handler's `try` and so answer 404.

Behaviour of the code worth knowing:

- An empty category table answers 200 with an empty mapping, since `.all()`
  never returns `None`.
- A `difficulty` (or any field) of 0 is accepted, because validation
  compares with `''` only (`ValidationExamples`).
- Search and the category listing check for an empty result before
  paginating. So a page past the end of a non-empty result answers 200
  with an empty `questions`, not 404.
- Create paginates its one-row re-read with the request's `page`. So
  `questions` holds the new row only on page 1 and is empty on any other.

## Model

| member | source | states |
|---|---|---|
| `Pagination.Paginate` | backend/flaskr/__init__.py:11-17 | at most 10 items, all from the input; for page >= 1 exactly the items at indices (page-1)*10 up to page*10, clipped to the length, and empty iff (page-1)*10 >= length; page 0 is empty |
| `Pagination.NegativePageCountsFromEnd` | backend/flaskr/__init__.py:12-16 | page p < 0 of n items is the items from max(0, n+(p-1)*10) up to max(0, n+10p), counted from the end as Python slices do; it is non-empty iff n > -10p |
| `Pagination.FirstPagesArePrefix` | backend/flaskr/__init__.py:13-16 | reading pages 1..k in turn yields the first 10k items in order: paging drops, repeats and reorders nothing |
| `Pagination.PageOfIndex` | backend/flaskr/__init__.py:13-16 | item i is on page i/10+1 at position i mod 10 |
| `Pagination.SingletonPage` | backend/flaskr/__init__.py:127-128 | a one-row result is the row itself on page 1 and empty on every other page |
| `Text.ContainsIff` | backend/flaskr/__init__.py:154 | the substring scan succeeds iff the term occurs at some index of the text |
| `Trivia.Select` | backend/flaskr/__init__.py:176-178 | a store query returns no more rows than the table, and a row is in the result iff it is in the table and meets the criterion |
| `Trivia.SelectKeepsOrder` | backend/flaskr/__init__.py:67 | a query over a table in ascending id order returns rows in ascending id order |
| `Trivia.Lookup` | backend/flaskr/__init__.py:91 | `query.get(id)` finds the index of a row with that id, and finds nothing iff no row has it |
| `Trivia.CategoryMap` | backend/flaskr/__init__.py:47 | the id-to-type mapping has exactly the categories' ids as keys |
| `Trivia.CategoryMapLookup` | backend/flaskr/__init__.py:47 | with unique ids, the mapping sends each category's id to its type |
| `Trivia.GetCategories` | backend/flaskr/__init__.py:39-51 | always succeeds; `total_category` is the number of categories and the mapping is keyed by their ids, each id sent to its type |
| `Trivia.GetQuestions` | backend/flaskr/__init__.py:64-80 | 404 iff the page is empty (for page >= 1: iff (page-1)*10 >= number of questions; page 0 always); otherwise 1 to 10 questions, exactly that page, `total_question` the number of all questions, every category with each id sent to its type (ids unique), `current_categories` null; for every page, including negative ones, 404 iff `Paginate` of the page is empty and otherwise the questions are that page |
| `Trivia.FarPageNotFound` | backend/flaskr/__init__.py:69-70 | page 100000 of a table of at most 999,990 rows is 404 |
| `Trivia.SearchSelectsMatches` | backend/flaskr/__init__.py:154 | the search query returns exactly the questions whose lower-cased text contains the lower-cased term |
| `Trivia.SearchIgnoresTermCase` | backend/flaskr/__init__.py:154 | lower-casing the term does not change whether a question matches |
| `Trivia.SearchQuestions` | backend/flaskr/__init__.py:147-164 | 422 iff the term is missing or ''; 404 iff the term is given and no question contains it; otherwise `total_questions` is the (non-zero) number of matches, the matches are exactly the questions containing the term, and `questions` is the requested page of them |
| `Trivia.QuestionsInCategory` | backend/flaskr/__init__.py:173-189 | 404 iff no question has that category; otherwise the matches are exactly the questions of that category, `total_questions` their non-zero number, `questions` the requested page of them and `category` the id |
| `Trivia.QuizCandidates` | backend/flaskr/__init__.py:209-216 | a candidate is exactly a stored question whose id is not in `previous_questions` and, for a single category, whose category is that one |
| `Trivia.SelectNext` | backend/flaskr/__init__.py:218-219 | no question iff there are no candidates; otherwise one of the candidates |
| `Trivia.FirstRoundDrawsFromAll` | backend/flaskr/__init__.py:211-212 | with `type` 'click' and no previous questions, the candidates are all stored questions |
| `Trivia.EveryCandidateDrawable` | backend/flaskr/__init__.py:218-219 | every candidate is the draw for some index in range |
| `Trivia.PlayQuiz` | backend/flaskr/__init__.py:201-226 | 404 iff `quiz_category` is missing, lacks `type`, or lacks `id` when `type` is not 'click'; a returned question is stored, not in `previous_questions`, and of the requested category unless `type` is 'click'; the question is null iff no stored question qualifies |
| `TriviaStore.RejectedIff` | backend/flaskr/__init__.py:115-121 | a body is rejected iff one of question, answer, category, difficulty is missing or equal to '' |
| `TriviaStore.ValidationExamples` | backend/flaskr/__init__.py:119-120 | numeric 0 values pass validation; empty question and answer fail it; a missing category fails it |
| `TriviaStore.AppendKeepsInvariant` | backend/flaskr/__init__.py:124-126 | a row inserted under the next id has an id no stored row has, and the table stays in ascending id order below the advanced counter |
| `TriviaStore.FreshRowIsOnlyMatch` | backend/flaskr/__init__.py:127 | re-reading a row inserted under a fresh id finds that row alone |
| `TriviaStore.RemoveDropsOnlyThatRow` | backend/flaskr/__init__.py:94 | deleting a present id leaves a table one shorter, still in id order, holding exactly the other rows |
| `TriviaStore.RemoveUndoesAppend` | backend/flaskr/__init__.py:94 | deleting the row just inserted under a fresh id gives back the table before the insert |
| `TriviaStore.Store.CreateQuestion` | backend/flaskr/__init__.py:111-136 | 422 iff the body is rejected, leaving the store unchanged; otherwise exactly one row is appended under the old next id, which no existing row has, the other rows are unchanged, the counter advances, `questions` is the new row on page 1 and empty on any other page, and `total_questions` is the old count + 1 |
| `TriviaStore.Store.DeleteQuestion` | backend/flaskr/__init__.py:88-100 | succeeds iff a row has the id, returning `deleted` == id and removing exactly that row; a missing id is 422 (the 404 is swallowed by the bare `except`) and leaves the table unchanged |
| `TriviaStore.CreateThenDelete` | backend/flaskr/__init__.py:88-136 | create then delete of the created id answers that id and restores the table; a second delete of it is 422 |

## Left out

- Flask application set-up, CORS and the `after_request` header injection (backend/flaskr/__init__.py:19-33): framework plumbing.
- JSON rendering by `jsonify` and the bodies of the error handlers (backend/flaskr/__init__.py:232-246): only the status is modelled.
- The `models` module (`setup_db`, `Question.format()`, `insert()`, `delete()`): it is not part of this model. The store is an in-memory sequence, and `format()` of a row is the row itself.
- Failures of the store (connectivity, constraint violations, type errors in the database): the model's store never fails. So the `except` branches of the listing, create and category handlers are never reached.
- Type coercion in the database: a field is stored as the JSON scalar it arrived as. A category stored as the string "1" does not match category id 1 in the model.
- Column types: a numeric question text is searched through its decimal rendering.
- ILIKE's wildcards and escape: `%`, `_` and `\` in a search term are plain characters in the model. Case folding covers ASCII letters only, not the database's locale rules.
- Parsing the `page` argument: Python's `int()` rules for the query text are not modelled. A given integer, an absent argument and a malformed one are the three inputs.
- Request bodies that are not JSON objects for create and search: Flask answers those before or outside the handlers' `try`.
- JSON null, booleans, floats, lists and objects as field values: they are not modelled. So are non-integer entries in `previous_questions`, and a missing `previous_questions` (what SQLAlchemy's `notin_('')` does with it).
- The ordering by `type` in the category listing: the answer is a mapping from id to type, and mappings have no order.
- GetQuestions: for a negative page its contract gives the answer as `Paginate` of that page (404 iff it is empty); which items that is, and when it is empty, is stated by `NegativePageCountsFromEnd`, not by the handler's own contract.
- Row order of queries without `order_by` (search, category listing, quiz): SQL promises no order there; the model chooses the store's ascending id order, and that choice decides which matches land on which page.
- The pseudo-random generator: its draw is the caller's index.
- Concurrency between requests: every handler runs alone on the store.
- The dead checks `categories is None` (line 43) and `except():` (line 79): they never change an outcome.
