/**
 * The three implemented routes of the trivia API, over an in-memory store
 * that stands for the `question` and `category` tables. A handler either
 * succeeds (the JSON body with `success: True`) or aborts with a status code.
 */
module Api {
  import opened Wrappers
  import opened Models
  import Pagination
  import QueryArgs

  const NOT_FOUND: int := 404
  const UNPROCESSABLE: int := 422

  datatype Outcome<T> = Ok(body: T) | Abort(code: int)

  /** Body of `GET /questions`. */
  datatype QuestionsBody<F> = QuestionsBody(questions: seq<F>, totalQuestions: nat, categories: map<int, string>)

  /** Body of `DELETE /questions/<id>`. */
  datatype DeletedBody<F> = DeletedBody(deleted: int, questions: seq<F>, totalQuestions: nat)

  /** The `for category in ...: categories[category.id] = category.type` loop. */
  method CollectCategories(cats: seq<Category>) returns (m: map<int, string>)
    ensures m == CategoryMap(cats)
    ensures m.Keys == CategoryIds(cats)
  {
    m := map[];
    var i := 0;
    while i < |cats|
      invariant 0 <= i <= |cats|
      invariant m == CategoryMap(cats[..i])
    {
      assert cats[..i + 1][..i] == cats[..i];
      m := m[cats[i].id := cats[i].kind];
      i := i + 1;
    }
    assert cats[..|cats|] == cats;
  }

  class TriviaStore {
    var questions: seq<Question>
    var categories: seq<Category>

    /** The primary keys of both tables hold. The store does not require
        this: a store with repeated question ids is allowed on purpose, so
        that the `MultipleResultsFound` path of `DeleteQuestion` can be
        reached. Where a promise depends on the keys, the contract says so. */
    ghost predicate PrimaryKeysHold()
      reads this
    {
      UniqueIds(questions) && UniqueCategoryIds(categories)
    }

    constructor (questions: seq<Question>, categories: seq<Category>)
      ensures this.questions == questions && this.categories == categories
    {
      this.questions := questions;
      this.categories := categories;
    }

    /** `GET /categories`: every category's id mapped to its type; 404 when
        there is no category. */
    method GetCategories() returns (r: Outcome<map<int, string>>)
      ensures r.Abort? <==> categories == []
      ensures r.Abort? ==> r.code == NOT_FOUND
      ensures r.Ok? ==> r.body == CategoryMap(categories) && r.body.Keys == CategoryIds(categories)
    {
      var data := categories;
      var m := CollectCategories(data);
      if |data| == 0 {
        return Abort(NOT_FOUND);
      }
      return Ok(m);
    }

    /** `GET /questions?page=N`: the requested page of all questions (in
        stored order), the count of all questions and the category map; 404
        when the page is empty. */
    method GetQuestions<F>(pageArg: Option<string>, format: Question -> F) returns (r: Outcome<QuestionsBody<F>>)
      ensures r.Abort? <==> Pagination.PaginateQuestions(pageArg, questions, format) == []
      ensures r.Abort? <==> Pagination.IsEmptyPage(QueryArgs.PageNumber(pageArg), |questions|)
      ensures r.Abort? ==> r.code == NOT_FOUND
      ensures r.Ok? ==> r.body.questions == Pagination.PaginateQuestions(pageArg, questions, format)
      ensures r.Ok? ==> r.body.totalQuestions == |questions|
      ensures r.Ok? ==> r.body.categories == CategoryMap(categories)
    {
      var selection := questions;
      var total := |selection|;
      var current := Pagination.PaginateQuestions(pageArg, selection, format);
      var cats := CollectCategories(categories);
      Pagination.PageEmptyIff(QueryArgs.PageNumber(pageArg), selection, format);
      if |current| == 0 {
        return Abort(NOT_FOUND);
      }
      return Ok(QuestionsBody(current, total, cats));
    }

    /** `DELETE /questions/<id>`. The whole handler runs inside a bare
        `try`/`except` that answers 422, so the `abort(404)` for a missing
        id, and `MultipleResultsFound` from `one_or_none()`, both end as
        422. On success the remaining questions are re-read in id order and
        paginated; an empty page is still a success. */
    method DeleteQuestion<F>(questionId: int, pageArg: Option<string>, format: Question -> F)
      returns (r: Outcome<DeletedBody<F>>)
      modifies this
      ensures categories == old(categories)
      ensures r.Ok? <==> OneOrNone(old(questions), questionId).OneRow?
      ensures old(PrimaryKeysHold()) ==> (r.Ok? <==> questionId in IdsOf(old(questions)))
      ensures r.Abort? ==> r.code == UNPROCESSABLE && questions == old(questions)
      ensures r.Ok? ==> questions == WithoutId(old(questions), questionId)
      ensures r.Ok? ==> |questions| == |old(questions)| - 1
      ensures r.Ok? ==> r.body.deleted == questionId
      ensures r.Ok? ==> r.body.totalQuestions == |questions|
      ensures r.Ok? ==> r.body.questions == Pagination.PaginateQuestions(pageArg, OrderById(questions), format)
      ensures old(PrimaryKeysHold()) ==> PrimaryKeysHold() && questionId !in IdsOf(questions)
    {
      ghost var before := questions;
      if old(PrimaryKeysHold()) {
        OneOrNoneUnderPrimaryKey(questions, questionId);
      }
      var found := OneOrNone(questions, questionId);
      match found {
        case NoRow =>
          // abort(404), caught by the bare except
          return Abort(UNPROCESSABLE);
        case ManyRows =>
          // MultipleResultsFound, caught by the bare except
          return Abort(UNPROCESSABLE);
        case OneRow(i) =>
          RemoveSingleMatch(questions, questionId, i);
          questions := questions[..i] + questions[i + 1..];
          var selection := OrderById(questions);
          var current := Pagination.PaginateQuestions(pageArg, selection, format);
          var total := |selection|;
          assert total == |questions| by {
            assert |multiset(selection)| == |multiset(questions)|;
          }
          IdRemoved(before, questionId);
          if old(PrimaryKeysHold()) {
            WithoutIdKeepsUniqueIds(before, questionId);
          }
          return Ok(DeletedBody(questionId, current, total));
      }
    }
  }
}
