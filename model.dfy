/** Data model of the trivia question bank: the two tables, the JSON values the
    handlers read from request bodies, and the HTTP responses they produce. */
module Model {

  datatype Option<+T> = None | Some(value: T)

  /** A row of the Question table. `format()` of the ORM row is this record itself. */
  datatype Question = Question(id: int, question: string, answer: string, category: int, difficulty: int)

  /** A row of the Category table; `kind` is the `type` column. */
  datatype Category = Category(id: int, kind: string)

  /** The scalar JSON values a client puts in a request body. */
  datatype Json = JStr(s: string) | JInt(i: int)

  /** HTTP status codes used by the handlers. */
  const OK: int := 200
  const Created: int := 201
  const BadRequest: int := 400
  const NotFound: int := 404
  const Unprocessable: int := 422
  const ServerError: int := 500

  /** The JSON payload of a response; every variant but `ErrorBody` carries `success: true`. */
  datatype Body =
    | CategoriesBody(categories: map<int, string>)
    | QuestionsBody(questions: seq<Question>, totalQuestions: int, categories: map<int, string>)
    | DeletedBody(deleted: int)
    | CreatedBody(message: string)
    | SearchBody(questions: seq<Question>, totalQuestions: int)
    | CategoryQuestionsBody(questions: seq<Question>, totalQuestions: int, currentCategory: string)
    | QuizBody(question: Question)
    | ErrorBody(error: int, message: string)
  {
    /** The `success` field of the payload. */
    predicate Success() { !ErrorBody? }
  }

  datatype Response = Response(status: int, body: Body)

  /** Primary-key uniqueness of the Question table. */
  ghost predicate UniqueIds(qs: seq<Question>)
  {
    forall i, j :: 0 <= i < j < |qs| ==> qs[i].id != qs[j].id
  }

  /** Primary-key uniqueness of the Category table. */
  ghost predicate UniqueCategoryIds(cs: seq<Category>)
  {
    forall i, j :: 0 <= i < j < |cs| ==> cs[i].id != cs[j].id
  }
}
