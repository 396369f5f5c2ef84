/**
 * `paginate_questions`: format every record of a selection, then take the
 * Python slice `[start:end]` with `start = (page - 1) * QUESTIONS_PER_PAGE`
 * and `end = start + QUESTIONS_PER_PAGE`. Nothing bounds `page`, so the
 * slice bounds can be negative and Python's slice rules decide the result.
 */
module Pagination {
  import opened Wrappers
  import QueryArgs

  /** Questions on one page. */
  const QUESTIONS_PER_PAGE: nat := 10

  /** Python's treatment of a slice bound `i` for a sequence of length `n`:
      a negative bound counts from the end, and the bound is then clamped to
      `0..n`. */
  function ClampIndex(i: int, n: nat): (k: nat)
    ensures k <= n
  {
    if i < 0 then (if i + n < 0 then 0 else i + n)
    else if i > n then n
    else i
  }

  /** Python's `s[start:stop]` with step 1. */
  function PySlice<T>(s: seq<T>, start: int, stop: int): (r: seq<T>)
    ensures |r| <= |s|
    ensures 0 <= start <= stop <= |s| ==> r == s[start..stop]
    ensures -|s| <= start <= stop < 0 ==> r == s[|s| + start..|s| + stop]
    ensures stop <= start && (start < 0 <==> stop < 0) ==> r == []
  {
    var lo, hi := ClampIndex(start, |s|), ClampIndex(stop, |s|);
    if lo < hi then s[lo..hi] else []
  }

  /** `[question.format() for question in selection]`. */
  function FormatAll<T, F>(selection: seq<T>, format: T -> F): seq<F>
  {
    seq(|selection|, i requires 0 <= i < |selection| => format(selection[i]))
  }

  /** The page `page` of `selection`, each record passed through `format`. */
  function Paginate<T, F>(page: int, selection: seq<T>, format: T -> F): (r: seq<F>)
    ensures |r| <= QUESTIONS_PER_PAGE
  {
    var start := (page - 1) * QUESTIONS_PER_PAGE;
    var end := start + QUESTIONS_PER_PAGE;
    PySlice(FormatAll(selection, format), start, end)
  }

  /** `paginate_questions(request, selection)`, given the request's first
      `page` query value if it has one. */
  function PaginateQuestions<T, F>(pageArg: Option<string>, selection: seq<T>, format: T -> F): (r: seq<F>)
    ensures |r| <= QUESTIONS_PER_PAGE
    ensures pageArg.None? ==> r == Paginate(QueryArgs.DEFAULT_PAGE, selection, format)
  {
    Paginate(QueryArgs.PageNumber(pageArg), selection, format)
  }

  function Min(a: int, b: int): int { if a < b then a else b }
  function Max(a: int, b: int): int { if a < b then b else a }

  /** Page `page >= 1` holds the records from offset `(page - 1) * 10` up to
      `min(|selection|, page * 10)`, in selection order, each formatted. */
  lemma PositivePage<T, F>(page: int, selection: seq<T>, format: T -> F)
    requires page >= 1
    ensures var n := |selection|;
            Paginate(page, selection, format)
            == FormatAll(selection[Min(n, (page - 1) * QUESTIONS_PER_PAGE)..Min(n, page * QUESTIONS_PER_PAGE)], format)
  {
  }

  /** A page whose first offset is at or past the end of the selection is
      empty (the `?page=99999` request). */
  lemma PageBeyondEndIsEmpty<T, F>(page: int, selection: seq<T>, format: T -> F)
    requires page >= 1 && (page - 1) * QUESTIONS_PER_PAGE >= |selection|
    ensures Paginate(page, selection, format) == []
  {
  }

  /** Page 0 is the slice `[-10:0]`, which is always empty. */
  lemma PageZeroIsEmpty<T, F>(selection: seq<T>, format: T -> F)
    ensures Paginate(0, selection, format) == []
  {
  }

  /** A negative page counts from the end of the selection and clamps at
      the front: page `-k` holds the records from `n - 10(k + 1)` up to
      `n - 10k`, each bound raised to 0 when it falls below. */
  lemma NegativePage<T, F>(page: int, selection: seq<T>, format: T -> F)
    requires page <= -1
    ensures var n := |selection|;
            Paginate(page, selection, format)
            == FormatAll(selection[Max(0, n + (page - 1) * QUESTIONS_PER_PAGE)..Max(0, n + page * QUESTIONS_PER_PAGE)], format)
  {
  }

  /** Page -1 of 25 records holds records 5 to 14. */
  lemma MinusOneOfTwentyFive<T, F>(selection: seq<T>, format: T -> F)
    requires |selection| == 25
    ensures Paginate(-1, selection, format) == FormatAll(selection[5..15], format)
  {
  }

  /** Record `i` is found on page `i / 10 + 1`, at position `i % 10`: the
      positive pages split the selection without loss. */
  lemma EveryRecordOnItsPage<T, F>(selection: seq<T>, format: T -> F, i: nat)
    requires i < |selection|
    ensures var r := Paginate(i / QUESTIONS_PER_PAGE + 1, selection, format);
            i % QUESTIONS_PER_PAGE < |r| && r[i % QUESTIONS_PER_PAGE] == format(selection[i])
  {
  }

  /** When a page is empty, in closed form over the page number and the
      length of the selection. */
  predicate IsEmptyPage(page: int, n: nat)
  {
    if page >= 1 then n <= (page - 1) * QUESTIONS_PER_PAGE
    else if page == 0 then true
    else n <= -page * QUESTIONS_PER_PAGE
  }

  lemma PageEmptyIff<T, F>(page: int, selection: seq<T>, format: T -> F)
    ensures Paginate(page, selection, format) == [] <==> IsEmptyPage(page, |selection|)
  {
  }
}
