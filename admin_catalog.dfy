/** The exercise catalogue of the admin panel (`pages/admin/index.js`): the
    avatar initials, the search filter, and pagination ten exercises at a
    time. */
module AdminCatalog {
  import opened Wrappers
  import opened Seqs
  import opened Strings

  const PageSize: nat := 10

  // ------------------------------------------------------------- initials

  /** `getInitials`: nothing for a missing or blank name; the first letter of
      a single word; otherwise the first letters of the first and the last
      word; upper-cased. */
  function GetInitials(nameOrEmail: Option<string>): (r: string)
    ensures |r| <= 2
    ensures r == [] <==> nameOrEmail.None? || AllSpace(nameOrEmail.value)
  {
    if nameOrEmail.None? || nameOrEmail.value == [] then ""
    else
      var parts := Words(nameOrEmail.value);
      if |parts| == 0 then ""
      else if |parts| == 1 then [UpperChar(parts[0][0])]
      else Upper([parts[0][0], parts[|parts| - 1][0]])
  }

  /** Names made of words separated by single spaces: the initials are the
      upper-cased first letters of the first and last word. */
  lemma InitialsOfWords(ws: seq<string>)
    requires forall k :: 0 <= k < |ws| ==> ws[k] != [] && forall j :: 0 <= j < |ws[k]| ==> !IsSpace(ws[k][j])
    ensures |ws| == 0 ==> GetInitials(Some(Join(ws, " "))) == ""
    ensures |ws| == 1 ==> GetInitials(Some(Join(ws, " "))) == [UpperChar(ws[0][0])]
    ensures |ws| > 1 ==> GetInitials(Some(Join(ws, " "))) == [UpperChar(ws[0][0]), UpperChar(ws[|ws| - 1][0])]
  {
    WordsOfJoin(ws);
    if |ws| > 0 {
      assert Join(ws, " ") != [] by {
        assert Words(Join(ws, " ")) != [];
      }
    }
  }

  /** Leading whitespace never changes the words of a name. */
  lemma {:induction false} WordsSkipLeadingSpace(pad: string, s: string)
    requires AllSpace(pad)
    ensures Words(pad + s) == Words(s)
  {
    if pad != [] {
      assert (pad + s)[1..] == pad[1..] + s;
      WordsSkipLeadingSpace(pad[1..], s);
    } else {
      assert pad + s == s;
    }
  }

  lemma InitialsSkipLeadingSpace(pad: string, s: string)
    requires AllSpace(pad) && s != []
    ensures GetInitials(Some(pad + s)) == GetInitials(Some(s))
  {
    WordsSkipLeadingSpace(pad, s);
  }

  // --------------------------------------------------------------- search

  datatype Exercise = Exercise(
    id: int,
    name: Option<string>,
    targetMuscle: Option<string>,
    equipment: Option<string>)

  /** `String(search || '').trim().toLowerCase()`. */
  function Query(search: Option<string>): string
  {
    Lower(Trim(search.GetOr("")))
  }

  /** Name, target muscle or equipment, lower-cased, contains `q`. */
  predicate Matches(ex: Exercise, q: string)
  {
    Contains(Lower(ex.name.GetOr("")), q)
    || Contains(Lower(ex.targetMuscle.GetOr("")), q)
    || Contains(Lower(ex.equipment.GetOr("")), q)
  }

  function Keeps(q: string): Exercise -> bool
  {
    (ex: Exercise) => q == [] || Matches(ex, q)
  }

  /** `filteredExercises`: everything for a blank search, otherwise the
      matching exercises in catalogue order. */
  function FilteredExercises(exercises: seq<Exercise>, search: Option<string>): (r: seq<Exercise>)
    ensures Query(search) == [] ==> r == exercises
    ensures Query(search) != [] ==> forall ex :: ex in r <==> ex in exercises && Matches(ex, Query(search))
    ensures IsSubsequence(r, exercises)
    ensures Query(search) != [] ==>
      forall ex :: multiset(r)[ex] == if Matches(ex, Query(search)) then multiset(exercises)[ex] else 0
  {
    var q := Query(search);
    FilterIsSubsequence(exercises, Keeps(q));
    FilterCounts(exercises, Keeps(q));
    if q == [] then
      FilterAll(exercises, Keeps(q));
      Filter(exercises, Keeps(q))
    else
      Filter(exercises, Keeps(q))
  }

  // ----------------------------------------------------------- pagination

  /** `Math.max(1, Math.ceil(n / PAGE_SIZE))`: the fewest pages that hold
      `n` exercises, and at least one. */
  function TotalPages(n: nat): (r: nat)
    ensures r >= 1 && r * PageSize >= n
    ensures r == 1 || (r - 1) * PageSize < n
  {
    var pages := (n + PageSize - 1) / PageSize;
    if pages < 1 then 1 else pages
  }

  /** `Array.prototype.slice` clamps a negative index to `|s| + index` (and
      at least 0) and a large one to `|s|`. */
  function SliceIndex(i: int, len: nat): (r: nat)
    ensures r <= len
    ensures 0 <= i <= len ==> r == i
  {
    if i < 0 then (if len + i < 0 then 0 else len + i)
    else if i > len then len
    else i
  }

  /** `s.slice(start, end)`. */
  function JsSlice<T>(s: seq<T>, start: int, end: int): (r: seq<T>)
    ensures 0 <= start <= end <= |s| ==> r == s[start..end]
    ensures end >= start ==> |r| <= end - start
  {
    var a := SliceIndex(start, |s|);
    var b := SliceIndex(end, |s|);
    if b <= a then [] else s[a..b]
  }

  /** `pageExercises`: page `page` of the filtered list, counted from 1. */
  function PageSlice<T>(s: seq<T>, page: int): (r: seq<T>)
    ensures |r| <= PageSize
    ensures page >= 1 && (page - 1) * PageSize < |s| ==>
      var start := (page - 1) * PageSize;
      r == s[start..if start + PageSize < |s| then start + PageSize else |s|] && r != []
    ensures page >= 1 && (page - 1) * PageSize >= |s| ==> r == []
  {
    JsSlice(s, (page - 1) * PageSize, (page - 1) * PageSize + PageSize)
  }

  /** Every exercise is on a page within range, at its place on that page. */
  lemma PageOfIndex<T>(s: seq<T>, i: nat)
    requires i < |s|
    ensures 1 <= i / PageSize + 1 <= TotalPages(|s|)
    ensures PageSlice(s, i / PageSize + 1)[i % PageSize] == s[i]
  {
    var p := i / PageSize + 1;
    var start := (p - 1) * PageSize;
    assert start <= i < start + PageSize;
  }

  /** Within range every page but an empty list's only page is non-empty. */
  lemma PagesInRangeNonEmpty<T>(s: seq<T>, page: int)
    requires s != [] && 1 <= page <= TotalPages(|s|)
    ensures PageSlice(s, page) != []
  {
  }

  /** The "previous" button: `Math.max(1, p - 1)`. */
  function PrevPage(page: int): (r: int)
    ensures r >= 1
    ensures page > 1 ==> r == page - 1
    ensures page <= 1 ==> r == 1
  {
    if page - 1 < 1 then 1 else page - 1
  }

  /** The "next" button: `Math.min(totalPages, p + 1)`. */
  function NextPage(page: int, totalPages: int): (r: int)
    ensures r <= totalPages
    ensures page < totalPages ==> r == page + 1
    ensures page >= totalPages ==> r == totalPages
  {
    if totalPages < page + 1 then totalPages else page + 1
  }

  /** Navigation never leaves `1..totalPages`, and "next" then "previous"
      comes back. */
  lemma NavigationInRange(page: int, totalPages: int)
    requires 1 <= page <= totalPages
    ensures 1 <= PrevPage(page) <= totalPages
    ensures 1 <= NextPage(page, totalPages) <= totalPages
    ensures page < totalPages ==> PrevPage(NextPage(page, totalPages)) == page
  {
  }
}
