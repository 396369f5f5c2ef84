# Trivia API backend — verified model of its request handlers

This project models the request-handling core of the trivia API backend
(`backend/flaskr/__init__.py`): the `paginate_questions` helper and the three
routes that have code, `GET /categories`, `GET /questions` and
`DELETE /questions/<id>`. The database is an in-memory store. It is a class
`Api.TriviaStore` with two sequence fields, one standing for the `question`
table and one for the `category` table. Each handler returns either a
success body or an abort status.

Modules:

- `Wrappers` (`wrappers.dfy`): the `Option` type.
- `QueryArgs` (`query_args.dfy`): how `request.args.get('page', 1, type=int)`
  turns the query value into a page number. It includes Python's `int()` on
  text: surrounding white space, an optional sign, and digits with single
  underscores between them. Anything else raises `ValueError`, which falls
  back to page 1.
- `Pagination` (`pagination.dfy`): `QUESTIONS_PER_PAGE = 10`, Python's slice
  rules (negative bounds count from the end, then bounds are clamped), and
  `paginate_questions` as the slice `[(page-1)*10 : (page-1)*10+10]` of the
  formatted selection. The record formatter (`question.format()`) is a
  function parameter.
- `Models` (`models.dfy`): the `Question` and `Category` records and the
  queries the handlers use. `order_by(Question.id)` is an insertion sort.
  `one_or_none()` tells apart no row, one row and several rows. Removing one
  row is a filter. The `{category.id: category.type}` dictionary is a map
  where a later entry overwrites an earlier one.
- `Api` (`api.dfy`): the loop that builds the category dictionary, and the
  class `TriviaStore` with the three handlers.

Behaviour that follows the code rather than the documentation or the tests:

- `delete_question` wraps its whole body in a bare `try`/`except` that calls
  `abort(422)`. The `abort(404)` for a missing id is an exception raised
  inside that `try`, so it is caught and the answer is 422. The test file
  expects 404 (`backend/test_flaskr.py:102-108`). The model answers 422, as
  the code does.
- `one_or_none()` raising `MultipleResultsFound` is caught the same way and
  also gives 422. The primary key rules this case out
  (`Models.OneOrNoneUnderPrimaryKey`).
- After a successful delete the page of remaining questions may be empty.
  The handler still answers with success.
- `GET /questions` paginates questions in stored order. There is no
  `order_by` on that query, so the store's sequence order is that order.

## Model

| member | source | states |
|---|---|---|
| `QueryArgs.ParseInt` | backend/flaskr/__init__.py:16 | Python's `int()` on ASCII text. Blank text is rejected. Accepted text holds only digits, white space (characters 9 to 13 and the space), signs and underscores. Partners: `ParseIntOfIntString`, `ParseIntLeadingZeroAndPlus`, `NonIntegerTextIsPageOne`, `SeparatorIsNotSpace`. |
| `QueryArgs.PageNumber` | backend/flaskr/__init__.py:16 | An absent `page` argument, or text that `int()` rejects, gives page 1. Otherwise the page is the value `int()` reads. |
| `QueryArgs.PageNumberOfInteger` | backend/flaskr/__init__.py:16 | `?page=n` selects page `n` for every integer `n`, including 0 and negative ones. |
| `QueryArgs.ParseIntOfIntString` | backend/flaskr/__init__.py:16 | `int(str(n)) == n` for every integer `n`. |
| `QueryArgs.ParseIntIgnoresSurroundingSpace` | backend/flaskr/__init__.py:16 | White space before and after the number does not change the value read. |
| `QueryArgs.NonIntegerTextIsPageOne` | backend/flaskr/__init__.py:16 | ASCII text containing a character other than a digit, white space, sign or underscore is not an integer, and the request gets page 1. |
| `QueryArgs.SeparatorIsNotSpace` | backend/flaskr/__init__.py:16 | Text containing an information separator (characters 28 to 31) is not an integer, so `?page=%1C2` gets page 1. |
| `QueryArgs.ParseIntLeadingZeroAndPlus` | backend/flaskr/__init__.py:16 | For every digit part, a leading `0`, a leading `+` sign or a leading `0_` group leaves the value `int()` reads unchanged, so `?page=007`, `?page=+7` and `?page=0_7` all select page 7. |
| `Pagination.PySlice` | backend/flaskr/__init__.py:21 | Python's `s[start:stop]`. In-range non-negative bounds give `s[start..stop]`. In-range negative bounds count from the end. Bounds of the same sign with `stop <= start` give an empty slice. The result is never longer than `s`. |
| `Pagination.PaginateQuestions` | backend/flaskr/__init__.py:15-23 | `paginate_questions(request, selection)` returns at most 10 records. Without a `page` argument it returns page 1. The page contents are stated by `PositivePage`, `NegativePage`, `PageZeroIsEmpty` and `PageEmptyIff`, and the page number by `PageNumber`. |
| `Pagination.Paginate` | backend/flaskr/__init__.py:10-23 | For every integer page, the page has at most `QUESTIONS_PER_PAGE` = 10 records. |
| `Pagination.PositivePage` | backend/flaskr/__init__.py:15-23 | For `page >= 1`, the page is the formatted selection from offset `(page-1)*10` up to `min(n, page*10)`, in selection order. |
| `Pagination.PageBeyondEndIsEmpty` | backend/flaskr/__init__.py:17-21 | A page whose first offset `(page-1)*10` is at or past the end of the selection is empty. |
| `Pagination.PageZeroIsEmpty` | backend/flaskr/__init__.py:17-21 | Page 0 is the slice `[-10:0]` and is always empty. |
| `Pagination.NegativePage` | backend/flaskr/__init__.py:17-21 | Page `-k` holds records `max(0, n-10(k+1))` up to `max(0, n-10k)`, following Python's slice rules for negative bounds. |
| `Pagination.MinusOneOfTwentyFive` | backend/flaskr/__init__.py:17-21 | Page -1 of 25 records holds records 5 to 14. |
| `Pagination.EveryRecordOnItsPage` | backend/flaskr/__init__.py:17-21 | Record `i` appears on page `i/10 + 1` at position `i mod 10`, so the positive pages cover the whole selection. |
| `Pagination.PageEmptyIff` | backend/flaskr/__init__.py:17-21 | A page is empty if and only if a closed-form condition on the page number and the selection length holds. The condition covers positive, zero and negative pages. |
| `Models.OrderById` | backend/flaskr/__init__.py:97 | `order_by(Question.id)` returns the same rows (a permutation) in non-decreasing id order. |
| `Models.OneOrNone` | backend/flaskr/__init__.py:90 | No row is found exactly when no row has the id. One row is found only when it is the single row with that id. Several rows are found only when two distinct rows share the id. |
| `Models.OneOrNoneUnderPrimaryKey` | backend/flaskr/__init__.py:90-93 | With unique ids, the lookup never finds several rows, and it finds one exactly when the id is stored. |
| `Models.WithoutId` | backend/flaskr/__init__.py:95 | The rows left after `question.delete()`, never more than before. Partners: `WithoutIdMembers` (exactly the rows with another id) and `RemoveSingleMatch` (the stored sequence with the one matching row cut out). |
| `Models.RemoveSingleMatch` | backend/flaskr/__init__.py:95 | Deleting the one row with the id equals keeping every row with a different id, in the original order. |
| `Models.WithoutIdMembers` | backend/flaskr/__init__.py:95 | After the deletion the rows left are exactly the stored rows whose id differs. |
| `Models.IdRemoved` | backend/flaskr/__init__.py:95 | After the deletion no stored row has the deleted id. |
| `Models.WithoutIdKeepsUniqueIds` | backend/flaskr/__init__.py:95 | Deletion keeps the ids unique. |
| `Models.CategoryMap` | backend/flaskr/__init__.py:46-48 | The keys of the category dictionary are exactly the category ids. |
| `Models.CategoryMapLastWins` | backend/flaskr/__init__.py:46-48 | Each key maps to the type of the last category with that id. |
| `Models.CategoryMapOfUniqueIds` | backend/flaskr/__init__.py:46-48 | With unique category ids, every category's id maps to that category's type. |
| `Api.CollectCategories` | backend/flaskr/__init__.py:70-72 | The dictionary-building loop produces the category dictionary. Its keys are the category ids. |
| `Api.TriviaStore.GetCategories` | backend/flaskr/__init__.py:43-56 | Aborts 404 if and only if there are no categories. Otherwise it returns the id-to-type dictionary, whose keys are exactly the category ids. |
| `Api.TriviaStore.GetQuestions` | backend/flaskr/__init__.py:60-84 | Aborts 404 if and only if the requested page is empty, stated both directly and in closed form. Otherwise it returns that page, `total_questions` equal to the count of all questions, and the category dictionary. |
| `Api.TriviaStore.DeleteQuestion` | backend/flaskr/__init__.py:88-113 | Succeeds if and only if exactly one stored question has the id; under the primary key, if and only if the id is stored. On success it removes exactly that question and nothing else. It returns `deleted = id` and `total_questions = old count - 1`, with the page taken from the remaining questions sorted by id. Every failure is 422 and leaves the store unchanged. The categories never change. Unique ids are preserved, and afterwards the id is not stored. |

## Left out

- Application wiring: `create_app`, Flask routing, the CORS setup and the `after_request` header injection (backend/flaskr/__init__.py:26-39) are framework plumbing. This includes the `<int:question_id>` route converter, which only matches non-negative digit strings. `DeleteQuestion` accepts any integer.
- SQLAlchemy and `models.py` are not part of this model. The tables are sequences. `question.format()` is a function parameter of the handlers. `Question.query.all()` returns the stored sequence as it is. Database failures other than `MultipleResultsFound` are not modelled.
- JSON serialisation and HTTP are modelled only as `Outcome` values: a success body or an abort status. No error handler is registered in this file, so the error bodies and messages the tests check are not produced here and are not modelled.
- Only the first `page` value of the query string is modelled. A repeated `page` argument is not.
- `QueryArgs.ParseInt` covers ASCII text only. When the text holds any non-ASCII character, Python's `int()` first turns every Unicode white-space character into a space and every Unicode decimal digit into its ASCII digit. ASCII characters pass through this conversion unchanged. The conversion itself is not modelled.
- `QueryArgs.ParseInt` does not model the limit on the length of integer strings in recent Python versions (4300 digits by default). Above that limit `int()` raises `ValueError`, so such a page argument would also give page 1.
- The routes marked `@TODO` (create, search, questions by category, quiz, error handlers; backend/flaskr/__init__.py:114-161) have no code and are not modelled. The `random` import is unused.
- The tests in backend/test_flaskr.py run against a live database with fixtures and are not modelled.
