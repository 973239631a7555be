/** `GET /questions` and `GET /categories/<id>/questions`. */
module Listing {
  import opened Model
  import Errors
  import opened Selection
  import opened Pagination
  import opened Categories

  /** `Question.query.filter_by(category=id).all()`, in table order. */
  function InCategory(qs: seq<Question>, id: int): seq<Question>
  {
    Filter(qs, (q: Question) => q.category == id)
  }

  /** `Category.query.filter_by(id=id)`: the rows `one_or_none()` inspects. */
  function CategoryRows(cs: seq<Category>, id: int): seq<Category>
  {
    Filter(cs, (c: Category) => c.id == id)
  }

  /** `GET /questions?page=N`: the page of questions, the size of the whole
      table and the category dictionary; 404 when the page is empty. */
  method GetQuestions(qs: seq<Question>, cs: seq<Category>, page: int) returns (r: Response)
    ensures r.status == OK || r == Errors.ErrorResponse(NotFound)
    ensures r.status == NotFound <==> Paginate(page, qs) == []
    ensures page >= 1 ==> (r.status == NotFound <==> (page - 1) * QuestionsPerPage >= |qs|)
    ensures r.status == OK ==>
              r.body == QuestionsBody(Paginate(page, qs), |qs|, CategoryMap(cs)) &&
              r.body.categories.Keys == CategoryIds(cs) &&
              (UniqueCategoryIds(cs) ==> forall k :: 0 <= k < |cs| ==> r.body.categories[cs[k].id] == cs[k].kind)
  {
    var count := |qs|;
    var current := Paginate(page, qs);
    var categories := BuildCategoryMap(cs);
    if |current| == 0 {
      r := Errors.ErrorResponse(NotFound);
    } else {
      r := Response(OK, QuestionsBody(current, count, categories));
    }
    if page >= 1 {
      PageOfPositive(page, qs);
    }
  }

  /** `GET /categories/<id>/questions` as written: past the category check, the
      handler reads `Question.quert`, which raises `AttributeError`; the uncaught
      exception becomes a 500. */
  function QuestionsByCategoryAsWritten(qs: seq<Question>, cs: seq<Category>, id: int, page: int): (r: Response)
    ensures CategoryRows(cs, id) == [] ==> r == Errors.ErrorResponse(Unprocessable)
    ensures CategoryRows(cs, id) != [] ==> r == Errors.ErrorResponse(ServerError)
  {
    var rows := CategoryRows(cs, id);
    if |rows| == 0 then Errors.ErrorResponse(Unprocessable)
    else Errors.ErrorResponse(ServerError)
  }

  /** `GET /categories/<id>/questions` with the evident `Question.query`: 422 for an
      unknown category, otherwise the page of that category's questions, their
      count and the category's type. Several rows with one id make
      `one_or_none()` raise, which is a 500. */
  function QuestionsByCategory(qs: seq<Question>, cs: seq<Category>, id: int, page: int): (r: Response)
    ensures r.status in {OK, Unprocessable, ServerError}
    ensures r.status != OK ==> r == Errors.ErrorResponse(r.status)
    ensures r.status == Unprocessable <==> (forall c :: c in cs ==> c.id != id)
    ensures r.status == OK ==>
              r.body.CategoryQuestionsBody? &&
              (exists c :: c in cs && c.id == id && r.body.currentCategory == c.kind) &&
              r.body.totalQuestions == |InCategory(qs, id)| &&
              r.body.questions == Paginate(page, InCategory(qs, id)) &&
              (forall q :: q in r.body.questions ==> q in qs && q.category == id)
  {
    var rows := CategoryRows(cs, id);
    if |rows| == 0 then Errors.ErrorResponse(Unprocessable)
    else
      assert rows[0] in rows;
      if |rows| > 1 then Errors.ErrorResponse(ServerError)
      else
        var questions := InCategory(qs, id);
        Response(OK, CategoryQuestionsBody(Paginate(page, questions), |questions|, rows[0].kind))
  }

  /** The typo turns every successful lookup into a 500: for a table with exactly
      one row of category `id`, the written handler fails where the intended one answers 200. */
  lemma QuertTypoFailsEveryKnownCategory(qs: seq<Question>, cs: seq<Category>, id: int, page: int)
    requires |CategoryRows(cs, id)| == 1
    ensures QuestionsByCategoryAsWritten(qs, cs, id, page).status == ServerError
    ensures QuestionsByCategory(qs, cs, id, page).status == OK
  {
  }

  /** Concrete instance: category 6 "Sports" with one question. */
  lemma QuertTypoExample()
    ensures QuestionsByCategoryAsWritten([Question(1, "q", "a", 6, 1)], [Category(6, "Sports")], 6, 1).status == ServerError
    ensures QuestionsByCategory([Question(1, "q", "a", 6, 1)], [Category(6, "Sports")], 6, 1)
              == Response(OK, CategoryQuestionsBody([Question(1, "q", "a", 6, 1)], 1, "Sports"))
  {
    var cs := [Category(6, "Sports")];
    var qs := [Question(1, "q", "a", 6, 1)];
    assert CategoryRows(cs, 6) == [Category(6, "Sports")];
    assert InCategory(qs, 6) == qs;
    FirstPageOfShortList(qs);
  }
}
