/** `POST /quizzes`: a random question of the chosen category whose id the
    player has not seen yet, found by drawing again until one is unseen. */
module Quiz {
  import opened Model
  import Errors
  import opened Listing
  import Decimal

  /** The `quiz_category` object of the request; `id` is `None` when the object has no `id` key. */
  datatype QuizCategory = QuizCategory(id: Option<Json>)

  /** The handler either answers, or is still drawing once the supplied draws
      are used up: the loop has not ended after that many draws. */
  datatype QuizOutcome = Answered(response: Response) | StillDrawing

  /** The value `filter_by(category=id)` compares the column with: a JSON number as
      it is, text as the database reads it into an integer, `None` when that
      reading fails and the query raises. */
  function CategoryKey(id: Json): (r: Option<int>)
    ensures id.JInt? ==> r == Some(id.i)
    ensures r.Some? && id.JStr? ==> Decimal.ParseInt(id.s) == r
  {
    match id
    case JInt(c) => Some(c)
    case JStr(s) => Decimal.IntOfText(s)
  }

  /** The candidate questions: the whole table when `quiz_category['id'] == 0`
      holds in Python (only for the number 0, not the text "0"), that category's
      questions otherwise; `None` when the category query raises. */
  function Pool(qs: seq<Question>, id: Json): (pool: Option<seq<Question>>)
    ensures id == JInt(0) ==> pool == Some(qs)
    ensures id != JInt(0) ==>
              pool == match CategoryKey(id)
                      case None => None
                      case Some(c) => Some(InCategory(qs, c))
    ensures pool.Some? && id != JInt(0) ==>
              forall q :: q in qs ==> (q in pool.value <==> Some(q.category) == CategoryKey(id))
  {
    if id == JInt(0) then Some(qs)
    else
      match CategoryKey(id)
      case None => None
      case Some(c) => Some(InCategory(qs, c))
  }

  /** `next_question.id in previous_questions`: Python compares the integer id with
      each entry, so only a JSON number equal to the id counts as seen. */
  predicate Seen(q: Question, previous: seq<Json>)
  {
    JInt(q.id) in previous
  }

  /** The text "0" is not the number 0: it selects the rows of category 0, not the whole table. */
  lemma TextZeroIsNotAllCategories(qs: seq<Question>)
    ensures Pool(qs, JStr("0")) == Some(InCategory(qs, 0))
  {
    assert Decimal.ParseInt("0") == Some(0);
  }

  /** The question the rejection loop settles on when `random.randint(0, len(pool) - 1)`
      returns `draws[0] % |pool|`, `draws[1] % |pool|`, ... in turn; `None` when
      every one of these draws hits a question already seen. */
  function FirstUnseen(pool: seq<Question>, previous: seq<Json>, draws: seq<nat>): (r: Option<Question>)
    requires |pool| > 0
    ensures r.Some? ==> r.value in pool && !Seen(r.value, previous)
  {
    if draws == [] then None
    else
      var q := pool[draws[0] % |pool|];
      if !Seen(q, previous) then Some(q) else FirstUnseen(pool, previous, draws[1..])
  }

  /** When every question of the pool has been seen, no sequence of draws ends the loop. */
  lemma {:induction false} ExhaustedPoolNeverAnswers(pool: seq<Question>, previous: seq<Json>, draws: seq<nat>)
    requires |pool| > 0
    requires forall q :: q in pool ==> Seen(q, previous)
    ensures FirstUnseen(pool, previous, draws) == None
  {
    if draws != [] {
      assert pool[draws[0] % |pool|] in pool;
      ExhaustedPoolNeverAnswers(pool, previous, draws[1..]);
    }
  }

  /** The loop ends as soon as some draw lands on an unseen question. */
  lemma {:induction false} UnseenDrawAnswers(pool: seq<Question>, previous: seq<Json>, draws: seq<nat>, j: nat)
    requires |pool| > 0
    requires j < |draws| && !Seen(pool[draws[j] % |pool|], previous)
    ensures FirstUnseen(pool, previous, draws).Some?
  {
    if Seen(pool[draws[0] % |pool|], previous) {
      assert j > 0;
      UnseenDrawAnswers(pool, previous, draws[1..], j - 1);
    }
  }

  /** The selection loop of `play_quiz`: draw once, then draw again while the
      drawn question's id is among the previous ones. `used` counts the draws consumed. */
  method PickUnseen(pool: seq<Question>, previous: seq<Json>, draws: seq<nat>) returns (next: Option<Question>, used: nat)
    requires |pool| > 0
    ensures next == FirstUnseen(pool, previous, draws)
    ensures next.Some? ==> next.value in pool && !Seen(next.value, previous)
    ensures used <= |draws|
    ensures next.Some? ==> 1 <= used && next.value == pool[draws[used - 1] % |pool|]
  {
    if draws == [] {
      return None, 0;
    }
    var nextQuestion := pool[draws[0] % |pool|];
    used := 1;
    var notFound := true;
    while notFound
      invariant 1 <= used <= |draws|
      invariant nextQuestion == pool[draws[used - 1] % |pool|]
      invariant FirstUnseen(pool, previous, draws) == FirstUnseen(pool, previous, draws[used - 1..])
      invariant !notFound ==> !Seen(nextQuestion, previous)
      decreases |draws| - used, notFound
    {
      if Seen(nextQuestion, previous) {
        if used == |draws| {
          assert draws[used - 1..][1..] == [];
          return None, used;
        }
        assert draws[used - 1..][1..] == draws[used..];
        nextQuestion := pool[draws[used] % |pool|];
        used := used + 1;
      } else {
        notFound := false;
      }
    }
    next := Some(nextQuestion);
  }

  /** The quiz handler. `previous` and `category` are the body's `previous_questions`
      and `quiz_category` (`None` when absent or null); `draws` stands for the
      random number generator. A missing `id` key raises `KeyError`, a category
      query the database cannot run raises, and an empty pool makes
      `randint(0, -1)` raise `ValueError`: all three end in a 500. */
  method PlayQuiz(qs: seq<Question>, previous: Option<seq<Json>>, category: Option<QuizCategory>, draws: seq<nat>)
    returns (out: QuizOutcome)
    ensures previous.None? || category.None? ==> out == Answered(Errors.ErrorResponse(BadRequest))
    ensures previous.Some? && category.Some? && category.value.id.None? ==>
              out == Answered(Errors.ErrorResponse(ServerError))
    ensures previous.Some? && category.Some? && category.value.id.Some? ==>
              var pool := Pool(qs, category.value.id.value);
              (pool.None? || pool == Some([]) ==> out == Answered(Errors.ErrorResponse(ServerError))) &&
              (pool.Some? && pool.value != [] ==>
                 out == match FirstUnseen(pool.value, previous.value, draws)
                        case None => StillDrawing
                        case Some(q) => Answered(Response(OK, QuizBody(q)))) &&
              (pool.Some? && pool.value != [] && (forall q :: q in pool.value ==> Seen(q, previous.value)) ==>
                 out == StillDrawing)
    ensures out.Answered? && out.response.status == OK ==>
              var q := out.response.body.question;
              var id := category.value.id.value;
              out.response.body.QuizBody? && q in qs && !Seen(q, previous.value) &&
              (id != JInt(0) ==> CategoryKey(id) == Some(q.category))
  {
    if previous.None? || category.None? {
      return Answered(Errors.ErrorResponse(BadRequest));
    }
    if category.value.id.None? {
      return Answered(Errors.ErrorResponse(ServerError));
    }
    var pool := Pool(qs, category.value.id.value);
    if pool.None? || |pool.value| == 0 {
      return Answered(Errors.ErrorResponse(ServerError));
    }
    var next, _ := PickUnseen(pool.value, previous.value, draws);
    if (forall q :: q in pool.value ==> Seen(q, previous.value)) {
      ExhaustedPoolNeverAnswers(pool.value, previous.value, draws);
    }
    match next
    case None => out := StillDrawing;
    case Some(q) => out := Answered(Response(OK, QuizBody(q)));
  }

  /** History (category 4) holds questions 5, 9 and 7, and 5 and 9 were seen:
      whenever the handler answers, it answers with question 7. */
  lemma HistoryQuizPicksSeven(draws: seq<nat>)
    ensures var qs := [Question(5, "a", "b", 4, 1), Question(9, "c", "d", 4, 2), Question(7, "e", "f", 4, 3)];
            var r := FirstUnseen(Pool(qs, JInt(4)).value, [JInt(5), JInt(9)], draws);
            r.Some? ==> r.value == qs[2]
  {
    var qs := [Question(5, "a", "b", 4, 1), Question(9, "c", "d", 4, 2), Question(7, "e", "f", 4, 3)];
    Selection.FilterAll(qs, (q: Question) => q.category == 4);
    assert Pool(qs, JInt(4)) == Some(qs);
  }

  /** An id sent as text is never seen: with `previous_questions` `["5"]`, question 5
      can be served again. */
  lemma TextIdIsNotSeen()
    ensures FirstUnseen([Question(5, "a", "b", 4, 1)], [JStr("5")], [0]) == Some(Question(5, "a", "b", 4, 1))
  {
  }
}
