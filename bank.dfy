/** The Question table as the two mutating handlers see it: `DELETE
    /questions/<id>` removes a row and `POST /questions` appends one. */
module Bank {
  import opened Model
  import Errors
  import Decimal
  import opened Selection

  /** The message of a successful creation. */
  const CreatedMessage: string := "Question creation successful!"

  /** The table without the rows whose id is `id`, others in their order. */
  function WithoutId(qs: seq<Question>, id: int): seq<Question>
  {
    Filter(qs, (q: Question) => q.id != id)
  }

  /** `Question.query.filter_by(id=id)`: the rows `one_or_none()` inspects. */
  function RowsWithId(qs: seq<Question>, id: int): seq<Question>
  {
    Filter(qs, (q: Question) => q.id == id)
  }

  /** Removing rows keeps the primary key unique. */
  lemma {:induction false} WithoutIdKeepsUnique(qs: seq<Question>, id: int)
    requires UniqueIds(qs)
    ensures UniqueIds(WithoutId(qs, id))
  {
    if qs != [] {
      WithoutIdKeepsUnique(qs[1..], id);
      var rest := WithoutId(qs[1..], id);
      forall x | x in rest
        ensures x.id != qs[0].id
      {
        var k :| 0 <= k < |qs[1..]| && qs[1..][k] == x;
        assert qs[k + 1] == x;
      }
    }
  }

  /** With a unique primary key, deleting an existing id removes exactly one row. */
  lemma {:induction false} WithoutIdRemovesOne(qs: seq<Question>, id: int)
    requires UniqueIds(qs)
    requires exists q :: q in qs && q.id == id
    ensures |WithoutId(qs, id)| == |qs| - 1
  {
    if qs[0].id == id {
      forall x | x in qs[1..]
        ensures x.id != id
      {
        var k :| 0 <= k < |qs[1..]| && qs[1..][k] == x;
        assert qs[k + 1] == x;
      }
      FilterAll(qs[1..], (q: Question) => q.id != id);
    } else {
      var q :| q in qs && q.id == id;
      assert q in qs[1..];
      WithoutIdRemovesOne(qs[1..], id);
    }
  }

  /** With a unique primary key, `one_or_none()` finds one row exactly when the id is present. */
  lemma {:induction false} RowsWithIdCount(qs: seq<Question>, id: int)
    requires UniqueIds(qs)
    ensures (exists q :: q in qs && q.id == id) ==> |RowsWithId(qs, id)| == 1
  {
    if qs != [] {
      if qs[0].id == id {
        forall x | x in qs[1..]
          ensures x.id != id
        {
          var k :| 0 <= k < |qs[1..]| && qs[1..][k] == x;
          assert qs[k + 1] == x;
        }
        assert RowsWithId(qs[1..], id) == [];
      } else {
        RowsWithIdCount(qs[1..], id);
        if exists q :: q in qs && q.id == id {
          var q :| q in qs && q.id == id;
          assert q in qs[1..];
        }
      }
    }
  }

  /** Deleting the id of a row just appended gives back the table before it. */
  lemma AddThenDeleteRestores(qs: seq<Question>, q: Question)
    requires forall x :: x in qs ==> x.id != q.id
    ensures WithoutId(qs + [q], q.id) == qs
  {
    FilterAppend(qs, [q], (x: Question) => x.id != q.id);
    FilterAll(qs, (x: Question) => x.id != q.id);
  }

  /** `json_body.get(key, '')`. */
  function Field(body: map<string, Json>, key: string): Json
  {
    if key in body then body[key] else JStr("")
  }

  /** The columns of a new row, before the database assigns its id. */
  datatype Draft = Draft(question: string, answer: string, category: int, difficulty: int)

  /** The row `add_question` inserts, or `None` when it answers 422: a field is
      missing or `''` (checked first), or the insert inside the `try` fails. */
  function NewRow(body: map<string, Json>): (r: Option<Draft>)
    ensures (Field(body, "question") == JStr("") || Field(body, "answer") == JStr("") ||
             Field(body, "difficulty") == JStr("") || Field(body, "category") == JStr("")) ==> r.None?
    ensures r.Some? ==>
              r.value.question == Decimal.JsonText(Field(body, "question")) &&
              r.value.answer == Decimal.JsonText(Field(body, "answer")) &&
              Decimal.IntColumn(Field(body, "difficulty")) == Some(r.value.difficulty) &&
              Decimal.IntColumn(Field(body, "category")) == Some(r.value.category)
    ensures r.None? ==>
              Field(body, "question") == JStr("") || Field(body, "answer") == JStr("") ||
              Field(body, "difficulty") == JStr("") || Field(body, "category") == JStr("") ||
              Decimal.IntColumn(Field(body, "difficulty")).None? || Decimal.IntColumn(Field(body, "category")).None?
  {
    var question, answer := Field(body, "question"), Field(body, "answer");
    var difficulty, category := Field(body, "difficulty"), Field(body, "category");
    if question == JStr("") || answer == JStr("") || difficulty == JStr("") || category == JStr("") then None
    else
      var d, c := Decimal.IntColumn(difficulty), Decimal.IntColumn(category);
      if d.None? || c.None? then None
      else Some(Draft(Decimal.JsonText(question), Decimal.JsonText(answer), c.value, d.value))
  }

  /** The body a client sends for a draft, with the numbers as JSON numbers. */
  function NumericBody(d: Draft): map<string, Json>
  {
    map["question" := JStr(d.question), "answer" := JStr(d.answer),
        "difficulty" := JInt(d.difficulty), "category" := JInt(d.category)]
  }

  /** The body a client sends for a draft, with the numbers as decimal text. */
  function TextBody(d: Draft): map<string, Json>
  {
    map["question" := JStr(d.question), "answer" := JStr(d.answer),
        "difficulty" := JStr(Decimal.IntText(d.difficulty)), "category" := JStr(Decimal.IntText(d.category))]
  }

  /** Every draft with non-empty texts and in-range numbers is accepted as sent,
      whether the numbers come as JSON numbers or as decimal text. */
  lemma NewRowAcceptsDraft(d: Draft)
    requires d.question != "" && d.answer != ""
    requires Decimal.InInt32(d.difficulty) && Decimal.InInt32(d.category)
    ensures NewRow(NumericBody(d)) == Some(d)
    ensures NewRow(TextBody(d)) == Some(d)
  {
    Decimal.ParseIntText(d.difficulty);
    Decimal.ParseIntText(d.category);
    var b := TextBody(d);
    assert Field(b, "difficulty") == JStr(Decimal.IntText(d.difficulty));
    assert Field(b, "category") == JStr(Decimal.IntText(d.category));
  }

  /** A body without `difficulty` is refused, whatever else it holds. */
  lemma MissingDifficultyRefused(body: map<string, Json>)
    requires "difficulty" !in body
    ensures NewRow(body) == None
  {
  }

  class QuestionBank {
    var questions: seq<Question>
    /** The next value of the table's id sequence. */
    var nextId: int

    /** Ids are unique, positive and below the next id the sequence hands out. */
    ghost predicate Valid()
      reads this
    {
      1 <= nextId && UniqueIds(questions) && (forall q :: q in questions ==> 1 <= q.id < nextId)
    }

    /** An empty Question table whose id sequence starts at 1. */
    constructor ()
      ensures Valid()
      ensures questions == [] && nextId == 1
    {
      questions := [];
      nextId := 1;
    }

    /** `DELETE /questions/<id>`. A missing id aborts with 404 inside the `try`; the
        bare `except` turns that, like any other failure, into 422. */
    method DeleteQuestion(id: int) returns (r: Response)
      requires Valid()
      modifies this`questions
      ensures Valid()
      ensures (exists q :: q in old(questions) && q.id == id) ==>
                r == Response(OK, DeletedBody(id)) &&
                questions == WithoutId(old(questions), id) && |questions| == |old(questions)| - 1
      ensures (forall q :: q in old(questions) ==> q.id != id) ==>
                r == Errors.ErrorResponse(Unprocessable) && questions == old(questions)
      ensures forall q :: q in questions <==> q in old(questions) && q.id != id
    {
      var rows := RowsWithId(questions, id);
      if |rows| != 1 {
        r := Errors.ErrorResponse(Unprocessable);
        RowsWithIdCount(questions, id);
        assert forall q :: q in questions ==> q.id != id;
      } else {
        assert rows[0] in rows;
        WithoutIdKeepsUnique(questions, id);
        WithoutIdRemovesOne(questions, id);
        questions := WithoutId(questions, id);
        r := Response(OK, DeletedBody(id));
      }
    }

    /** `POST /questions`: 422 and no change when `NewRow` refuses the body,
        otherwise one row with the next id appended, and 201. */
    method AddQuestion(body: map<string, Json>) returns (r: Response)
      requires Valid()
      modifies this`questions, this`nextId
      ensures Valid()
      ensures NewRow(body).None? ==>
                r == Errors.ErrorResponse(Unprocessable) && questions == old(questions) && nextId == old(nextId)
      ensures NewRow(body).Some? ==>
                var d := NewRow(body).value;
                r == Response(Created, CreatedBody(CreatedMessage)) &&
                questions == old(questions) + [Question(old(nextId), d.question, d.answer, d.category, d.difficulty)] &&
                nextId == old(nextId) + 1
    {
      var row := NewRow(body);
      if row.None? {
        r := Errors.ErrorResponse(Unprocessable);
      } else {
        var d := row.value;
        assert forall k :: 0 <= k < |questions| ==> questions[k] in questions;
        questions := questions + [Question(nextId, d.question, d.answer, d.category, d.difficulty)];
        nextId := nextId + 1;
        r := Response(Created, CreatedBody(CreatedMessage));
      }
    }
  }
}
