/** `paginate`: a page of at most ten records, cut out of the formatted list
    with a Python slice `[(page - 1) * 10 : (page - 1) * 10 + 10]`. */
module Pagination {

  const QuestionsPerPage: int := 10

  /** Python's normalisation of one slice bound for a sequence of length `n`:
      a negative bound counts from the end, and the result is clamped to `0..n`. */
  function SliceBound(i: int, n: nat): (k: nat)
    ensures k <= n
  {
    if i < 0 then (if i + n < 0 then 0 else i + n)
    else if i > n then n
    else i
  }

  /** Python's `s[i:j]` with step 1. */
  function PySlice<T>(s: seq<T>, i: int, j: int): (r: seq<T>)
    ensures (0 <= i <= j || i <= j < 0) ==> |r| <= j - i
    ensures j == 0 ==> r == []
    ensures forall x :: x in r ==> x in s
  {
    var lo, hi := SliceBound(i, |s|), SliceBound(j, |s|);
    if lo < hi then s[lo..hi] else []
  }

  /** `paginate(request, data)` with `page` already read from the query string
      (default 1). Formatting a row is the identity in this model. */
  function Paginate<T>(page: int, data: seq<T>): (r: seq<T>)
    ensures |r| <= QuestionsPerPage
    ensures forall x :: x in r ==> x in data
  {
    var start := (page - 1) * QuestionsPerPage;
    PySlice(data, start, start + QuestionsPerPage)
  }

  /** A page numbered from 1 is the window of records `(page-1)*10 .. page*10`
      clipped to the end of the data, and is empty exactly when it starts past the end. */
  lemma PageOfPositive<T>(page: int, data: seq<T>)
    requires page >= 1
    ensures var start := (page - 1) * QuestionsPerPage;
            Paginate(page, data) ==
              if start < |data| then data[start..if page * QuestionsPerPage < |data| then page * QuestionsPerPage else |data|]
              else []
    ensures Paginate(page, data) == [] <==> (page - 1) * QuestionsPerPage >= |data|
  {
  }

  /** Page 0 is always empty; a negative page counts pages back from the end of
      the data, as Python's negative slice bounds do. */
  lemma PageOfNonPositive<T>(page: int, data: seq<T>)
    requires page <= 0
    ensures Paginate(page, data) ==
              if page == 0 || |data| + page * QuestionsPerPage <= 0 then []
              else data[SliceBound((page - 1) * QuestionsPerPage, |data|)..|data| + page * QuestionsPerPage]
  {
  }

  /** The first page of fewer than eleven records is all of them. */
  lemma FirstPageOfShortList<T>(data: seq<T>)
    requires |data| <= QuestionsPerPage
    ensures Paginate(1, data) == data
  {
    PageOfPositive(1, data);
  }
}
