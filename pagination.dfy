/** `paginate_data`: a page of ten items cut out of an ordered result set
    with Python's slice semantics. */
module Pagination {

  const QUESTIONS_PER_PAGE: nat := 10

  /** The `page` query argument as `request.args.get('page', 1, type=int)`
      sees it: absent, not an integer, or an integer. */
  datatype PageArg = Absent | Malformed | Given(n: int)

  /** The page number a request asks for; 1 unless an integer was given. */
  function PageNumber(arg: PageArg): int {
    if arg.Given? then arg.n else 1
  }

  function Min(a: int, b: int): int {
    if a <= b then a else b
  }

  function Max(a: int, b: int): int {
    if a >= b then a else b
  }

  /** Python's normalisation of a slice bound against a sequence of length
      `n`: a negative bound counts from the end, and the result is clipped
      to `0..n`. */
  function SliceBound(i: int, n: nat): (k: nat)
    ensures k <= n
  {
    if i < 0 then (if i + n < 0 then 0 else i + n) else Min(i, n)
  }

  /** Python's `s[start:stop]`. */
  function Slice<T>(s: seq<T>, start: int, stop: int): seq<T> {
    var a, b := SliceBound(start, |s|), SliceBound(stop, |s|);
    if a < b then s[a..b] else []
  }

  /** `paginate_data(request, items)` for the page number `page`. For a
      positive page it is the items at indices `(page-1)*10 .. page*10`,
      clipped to the list, and empty exactly when the page starts past the
      end; page 0 is always empty. */
  function Paginate<T>(items: seq<T>, page: int): (r: seq<T>)
    ensures |r| <= QUESTIONS_PER_PAGE
    ensures forall x :: x in r ==> x in items
    ensures page >= 1 ==>
      r == items[Min((page - 1) * QUESTIONS_PER_PAGE, |items|)..Min(page * QUESTIONS_PER_PAGE, |items|)]
    ensures page >= 1 ==> (r == [] <==> (page - 1) * QUESTIONS_PER_PAGE >= |items|)
    ensures page == 0 ==> r == []
  {
    var start := (page - 1) * QUESTIONS_PER_PAGE;
    Slice(items, start, start + QUESTIONS_PER_PAGE)
  }

  /** Python slicing with negative bounds: a negative page counts from the
      end (page -1 is `items[-20:-10]`), clipped at the front. It is a full
      page of ten on a long list, a partial one on a shorter list, and
      empty exactly when the list has at most -10*page items. */
  lemma NegativePageCountsFromEnd<T>(items: seq<T>, page: int)
    requires page < 0
    ensures var a := Max(0, |items| + (page - 1) * QUESTIONS_PER_PAGE);
            var b := Max(0, |items| + page * QUESTIONS_PER_PAGE);
            a <= b && Paginate(items, page) == items[a..b]
    ensures Paginate(items, page) != [] <==> |items| > -page * QUESTIONS_PER_PAGE
  {
  }

  /** A one-row result set fills page 1 and no other page, negative ones included. */
  lemma SingletonPage<T>(x: T, page: int)
    ensures Paginate([x], page) == if page == 1 then [x] else []
  {
  }

  /** Pages 1 to k, read one after the other. */
  function FirstPages<T>(items: seq<T>, k: nat): seq<T> {
    if k == 0 then [] else FirstPages(items, k - 1) + Paginate(items, k)
  }

  /** Reading pages 1, 2, ..., k in turn yields the first 10k items in their
      order: paging drops, repeats and reorders nothing. */
  lemma {:induction false} FirstPagesArePrefix<T>(items: seq<T>, k: nat)
    ensures FirstPages(items, k) == items[..Min(k * QUESTIONS_PER_PAGE, |items|)]
  {
    if k > 0 {
      FirstPagesArePrefix(items, k - 1);
      var a, b := Min((k - 1) * QUESTIONS_PER_PAGE, |items|), Min(k * QUESTIONS_PER_PAGE, |items|);
      assert items[..a] + items[a..b] == items[..b];
    }
  }

  /** Item i lies on page i/10 + 1, at position i mod 10. */
  lemma PageOfIndex<T>(items: seq<T>, i: nat)
    requires i < |items|
    ensures var p := Paginate(items, i / QUESTIONS_PER_PAGE + 1);
            i % QUESTIONS_PER_PAGE < |p| && p[i % QUESTIONS_PER_PAGE] == items[i]
  {
  }
}
