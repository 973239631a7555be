/** `POST /questions/search`: case-insensitive substring search over the
    question text, `Question.question.ilike('%term%')`. */
module Search {
  import opened Model
  import Errors
  import Decimal
  import opened Selection
  import opened Pagination

  /** Case folding of one character (ASCII letters only). */
  function Lower(c: char): char
  {
    if 'A' <= c <= 'Z' then (c as int - 'A' as int + 'a' as int) as char else c
  }

  function LowerText(s: string): (r: string)
    ensures |r| == |s|
    ensures forall k :: 0 <= k < |s| ==> r[k] == Lower(s[k])
  {
    if s == [] then [] else [Lower(s[0])] + LowerText(s[1..])
  }

  /** `pat` occurs in `text` starting at index `i`. */
  ghost predicate OccursAt(text: string, pat: string, i: int)
  {
    0 <= i && i + |pat| <= |text| && text[i..i + |pat|] == pat
  }

  /** Substring test, scanning start positions left to right. */
  function Contains(text: string, pat: string): bool
  {
    (|pat| <= |text| && text[..|pat|] == pat) || (text != [] && Contains(text[1..], pat))
  }

  /** The scan finds `pat` exactly when it occurs at some position of `text`. */
  lemma {:induction false} ContainsIff(text: string, pat: string)
    ensures Contains(text, pat) <==> exists i :: OccursAt(text, pat, i)
  {
    if |pat| <= |text| && text[..|pat|] == pat {
      assert OccursAt(text, pat, 0);
    } else if text != [] {
      ContainsIff(text[1..], pat);
      if exists i :: OccursAt(text[1..], pat, i) {
        var i :| OccursAt(text[1..], pat, i);
        assert text[i + 1..i + 1 + |pat|] == text[1..][i..i + |pat|];
        assert OccursAt(text, pat, i + 1);
      }
      if exists i :: OccursAt(text, pat, i) {
        var i :| OccursAt(text, pat, i);
        if i > 0 {
          assert text[1..][i - 1..i - 1 + |pat|] == text[i..i + |pat|];
          assert OccursAt(text[1..], pat, i - 1);
        }
      }
    }
  }

  /** `column.ilike('%term%')`: the term occurs in the text, ignoring case. */
  predicate ILike(text: string, term: string)
  {
    Contains(LowerText(text), LowerText(term))
  }

  /** The rows `Question.query.filter(...ilike...).all()` returns, in table order. */
  function Matches(qs: seq<Question>, term: string): seq<Question>
  {
    Filter(qs, (q: Question) => ILike(q.question, term))
  }

  /** The search handler. `searchTerm` is the body's `searchTerm` field (`None`
      when absent, which `.get('searchTerm', '')` turns into `''`); `page` is the
      query string's page number. The term enters the pattern through the
      f-string `f'%{search_term}%'`, so a number is matched by its decimal text. */
  function SearchQuestions(qs: seq<Question>, searchTerm: Option<Json>, page: int): (r: Response)
    ensures r.status in {OK, NotFound, Unprocessable}
    ensures r.status == Unprocessable <==> searchTerm.None? || searchTerm == Some(JStr(""))
    ensures r.status != OK ==> r == Errors.ErrorResponse(r.status)
    ensures r.status == NotFound <==>
              searchTerm.Some? && searchTerm != Some(JStr("")) && Matches(qs, Decimal.JsonText(searchTerm.value)) == []
    ensures r.status == OK ==>
              r.body.SearchBody? && r.body.totalQuestions == |qs| &&
              r.body.questions == Paginate(page, Matches(qs, Decimal.JsonText(searchTerm.value)))
  {
    var term := if searchTerm.Some? then searchTerm.value else JStr("");
    if term == JStr("") then Errors.ErrorResponse(Unprocessable)
    else
      var found := Matches(qs, Decimal.JsonText(term));
      if |found| == 0 then Errors.ErrorResponse(NotFound)
      else Response(OK, SearchBody(Paginate(page, found), |qs|))
  }

  /** A row is found exactly when its question text contains the term, ignoring case. */
  lemma MatchesIff(qs: seq<Question>, term: string, q: Question)
    ensures q in Matches(qs, term) <==>
              q in qs && exists i :: OccursAt(LowerText(q.question), LowerText(term), i)
  {
    ContainsIff(LowerText(q.question), LowerText(term));
    assert q in Matches(qs, term) <==> q in qs && ILike(q.question, term);
    assert ILike(q.question, term) == Contains(LowerText(q.question), LowerText(term));
  }

  lemma {:induction false} LowerTextIdempotent(s: string)
    ensures LowerText(LowerText(s)) == LowerText(s)
  {
    if s != [] {
      LowerTextIdempotent(s[1..]);
    }
  }

  /** Searching ignores the case of the term: a term and its lower-case form find the same rows. */
  lemma SearchIgnoresTermCase(qs: seq<Question>, term: string)
    ensures Matches(qs, LowerText(term)) == Matches(qs, term)
  {
    LowerTextIdempotent(term);
    FilterCongruent(qs, (q: Question) => ILike(q.question, LowerText(term)), (q: Question) => ILike(q.question, term));
  }

  /** A search whose N matches fit on the first page returns exactly those N rows. */
  lemma SearchReturnsAllMatches(qs: seq<Question>, term: string)
    requires term != ""
    requires 0 < |Matches(qs, term)| <= QuestionsPerPage
    ensures SearchQuestions(qs, Some(JStr(term)), 1).status == OK
    ensures SearchQuestions(qs, Some(JStr(term)), 1).body.questions == Matches(qs, term)
  {
    FirstPageOfShortList(Matches(qs, term));
  }
}
