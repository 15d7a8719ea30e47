/** The read side of the trivia question service: its entities, the queries
    its routes put to the store, and the handlers that only read the store
    (list categories, list questions, search, questions of a category, next
    quiz question). A handler takes the store's question and category rows
    as sequences; `TriviaStore` holds those rows and the two handlers that
    change them. */
module Trivia {
  import opened Outcomes
  import opened Text
  import opened Pagination

  /** A JSON scalar as a request body carries it. */
  datatype Scalar = Str(s: string) | Num(n: int)

  /** The text an f-string gives a scalar. */
  function Render(v: Scalar): string {
    match v
    case Str(s) => s
    case Num(n) => IntText(n)
  }

  /** A question row; `format()` of a row is modelled as the row itself. */
  datatype Question = Question(id: int, question: Scalar, answer: Scalar, category: Scalar, difficulty: Scalar)

  /** A category row; `kind` is the row's `type` column, its display label. */
  datatype Category = Category(id: int, kind: string)

  // ---------------------------------------------------------------------
  // Store queries

  /** The filter criteria the routes pass to `Question.query.filter`. */
  datatype Criterion =
    | IdIs(id: int)                  // Question.id == id
    | QuestionContains(term: string) // Question.question.ilike('%term%')
    | CategoryIs(category: Scalar)   // Question.category == category
    | IdNotIn(ids: seq<int>)         // Question.id.notin_(ids)

  predicate Holds(c: Criterion, q: Question) {
    match c
    case IdIs(id) => q.id == id
    case QuestionContains(term) => Contains(Lower(Render(q.question)), Lower(term))
    case CategoryIs(v) => q.category == v
    case IdNotIn(ids) => q.id !in ids
  }

  /** `filter(c).all()`: the rows satisfying `c`, in store order. */
  function Select(qs: seq<Question>, c: Criterion): (r: seq<Question>)
    ensures |r| <= |qs|
    ensures forall q :: q in r <==> q in qs && Holds(c, q)
    decreases |qs|
  {
    if qs == [] then []
    else (if Holds(c, qs[0]) then [qs[0]] else []) + Select(qs[1..], c)
  }

  lemma {:induction false} SelectAppend(qs: seq<Question>, more: seq<Question>, c: Criterion)
    ensures Select(qs + more, c) == Select(qs, c) + Select(more, c)
    decreases |qs|
  {
    if qs == [] {
      assert qs + more == more;
    } else {
      assert (qs + more)[1..] == qs[1..] + more;
      SelectAppend(qs[1..], more, c);
    }
  }

  /** A query that every row passes returns the whole table. */
  lemma {:induction false} SelectAll(qs: seq<Question>, c: Criterion)
    requires forall i :: 0 <= i < |qs| ==> Holds(c, qs[i])
    ensures Select(qs, c) == qs
    decreases |qs|
  {
    if qs != [] {
      SelectAll(qs[1..], c);
    }
  }

  /** A query that no row passes returns nothing. */
  lemma {:induction false} SelectNone(qs: seq<Question>, c: Criterion)
    requires forall i :: 0 <= i < |qs| ==> !Holds(c, qs[i])
    ensures Select(qs, c) == []
    decreases |qs|
  {
    if qs != [] {
      SelectNone(qs[1..], c);
    }
  }

  /** The rows are kept in ascending id order, so ids are unique too. */
  predicate IdsIncreasing(qs: seq<Question>) {
    forall i, j :: 0 <= i < j < |qs| ==> qs[i].id < qs[j].id
  }

  /** A query without `order_by` keeps the store's ascending id order. */
  lemma {:induction false} SelectKeepsOrder(qs: seq<Question>, c: Criterion)
    requires IdsIncreasing(qs)
    ensures IdsIncreasing(Select(qs, c))
    decreases |qs|
  {
    if qs != [] {
      SelectKeepsOrder(qs[1..], c);
      var rest := Select(qs[1..], c);
      forall q | q in rest ensures qs[0].id < q.id {
        var j :| 0 <= j < |qs[1..]| && qs[1..][j] == q;
        assert qs[j + 1] == q;
      }
    }
  }

  /** `Question.query.get(id)`: the index of the row with that id, if any. */
  function Lookup(qs: seq<Question>, id: int): (r: Option<nat>)
    ensures r.Some? ==> r.value < |qs| && qs[r.value].id == id
    ensures r.None? <==> forall q :: q in qs ==> q.id != id
    decreases |qs|
  {
    if qs == [] then None
    else if qs[0].id == id then Some(0)
    else match Lookup(qs[1..], id)
      case None => None
      case Some(k) => Some(k + 1)
  }

  // ---------------------------------------------------------------------
  // GET /categories

  /** `{category.id: category.type for category in categories}`. The handler
      iterates the rows in `type` order and the mapping here in store order;
      the two agree because category ids are unique (`Store.Valid`), so no
      row overrides another. */
  function CategoryMap(cs: seq<Category>): (m: map<int, string>)
    ensures m.Keys == (set c | c in cs :: c.id)
    decreases |cs|
  {
    if cs == [] then map[]
    else CategoryMap(cs[..|cs| - 1])[cs[|cs| - 1].id := cs[|cs| - 1].kind]
  }

  predicate CategoryIdsUnique(cs: seq<Category>) {
    forall i, j :: 0 <= i < j < |cs| ==> cs[i].id != cs[j].id
  }

  /** With unique ids, the mapping sends every category's id to its label. */
  lemma {:induction false} CategoryMapLookup(cs: seq<Category>)
    ensures CategoryIdsUnique(cs) ==>
      forall i :: 0 <= i < |cs| ==> CategoryMap(cs)[cs[i].id] == cs[i].kind
    decreases |cs|
  {
    if cs != [] && CategoryIdsUnique(cs) {
      var init := cs[..|cs| - 1];
      CategoryMapLookup(init);
      forall i | 0 <= i < |cs| - 1 ensures CategoryMap(cs)[cs[i].id] == cs[i].kind {
        assert init[i] == cs[i];
      }
    }
  }

  datatype CategoryListing = CategoryListing(categories: map<int, string>, totalCategory: nat)

  /** GET /categories. An empty category table is still a success. */
  function GetCategories(categories: seq<Category>): (r: Result<CategoryListing>)
    ensures r.Ok?
    ensures r.value.totalCategory == |categories|
    ensures r.value.categories.Keys == (set c | c in categories :: c.id)
    ensures CategoryIdsUnique(categories) ==>
      forall i :: 0 <= i < |categories| ==> r.value.categories[categories[i].id] == categories[i].kind
  {
    CategoryMapLookup(categories);
    Ok(CategoryListing(CategoryMap(categories), |categories|))
  }

  // ---------------------------------------------------------------------
  // GET /questions?page=N

  datatype QuestionListing = QuestionListing(
    questions: seq<Question>,
    totalQuestion: nat,
    categories: map<int, string>,
    currentCategories: Option<int>)

  /** GET /questions. The store keeps its rows in ascending id order, which
      is the `order_by(Question.id)` of the query. An empty page is 404;
      otherwise the page, the number of all questions, every category and a
      null current category. */
  function GetQuestions(questions: seq<Question>, categories: seq<Category>, page: PageArg): (r: Result<QuestionListing>)
    ensures r.Err? ==> r.error == NotFound
    ensures PageNumber(page) >= 1 ==> (r.Err? <==> (PageNumber(page) - 1) * QUESTIONS_PER_PAGE >= |questions|)
    ensures PageNumber(page) == 0 ==> r.Err?
    ensures r.Ok? ==>
      && 0 < |r.value.questions| <= QUESTIONS_PER_PAGE
      && r.value.totalQuestion == |questions|
      && r.value.categories.Keys == (set c | c in categories :: c.id)
      && r.value.currentCategories == None
    ensures r.Ok? && CategoryIdsUnique(categories) ==>
      forall i :: 0 <= i < |categories| ==> r.value.categories[categories[i].id] == categories[i].kind
    ensures r.Err? <==> Paginate(questions, PageNumber(page)) == []
    ensures r.Ok? ==> r.value.questions == Paginate(questions, PageNumber(page))
    ensures r.Ok? && PageNumber(page) >= 1 ==>
      var start := (PageNumber(page) - 1) * QUESTIONS_PER_PAGE;
      r.value.questions == questions[start..Min(start + QUESTIONS_PER_PAGE, |questions|)]
  {
    var current := Paginate(questions, PageNumber(page));
    CategoryMapLookup(categories);
    if |current| == 0 then Err(NotFound)
    else Ok(QuestionListing(current, |questions|, CategoryMap(categories), None))
  }

  /** A page number past the stored questions is 404, as for `?page=100000`
      on a table of fewer than 999,991 rows. */
  lemma FarPageNotFound(questions: seq<Question>, categories: seq<Category>)
    requires |questions| <= 999990
    ensures GetQuestions(questions, categories, Given(100000)) == Err(NotFound)
  {
  }

  // ---------------------------------------------------------------------
  // POST /questions/search

  /** The JSON body of a search; `None` is a missing `searchTerm` key. */
  datatype SearchBody = SearchBody(searchTerm: Option<Scalar>)

  /** `body.get(key, '')`: a missing key reads as the empty string. */
  function Field(v: Option<Scalar>): Scalar {
    if v.Some? then v.value else Str("")
  }

  datatype Matches = Matches(questions: seq<Question>, totalQuestions: nat)

  /** A question matches a term when the term occurs in its text, letter case aside. */
  ghost predicate TextMatches(q: Question, term: string) {
    exists i :: OccursAt(Lower(Render(q.question)), Lower(term), i)
  }

  /** The search query returns exactly the questions whose text contains
      the term, ignoring case. */
  lemma SearchSelectsMatches(questions: seq<Question>, term: string)
    ensures forall q :: q in Select(questions, QuestionContains(term)) <==> q in questions && TextMatches(q, term)
  {
    forall q | q in questions {
      ContainsIff(Lower(Render(q.question)), Lower(term));
    }
  }

  /** Letter case in the term does not change what matches. */
  lemma SearchIgnoresTermCase(q: Question, term: string)
    ensures Holds(QuestionContains(term), q) == Holds(QuestionContains(Lower(term)), q)
  {
    LowerIdempotent(term);
  }

  /** POST /questions/search. An empty or missing term is 422, a term no
      question contains is 404; otherwise the requested page of the matches
      and their number before pagination. The page may be empty. */
  function SearchQuestions(questions: seq<Question>, body: SearchBody, page: PageArg): (r: Result<Matches>)
    ensures r == Err(Unprocessable) <==> Field(body.searchTerm) == Str("")
    ensures r == Err(NotFound) <==>
      Field(body.searchTerm) != Str("") && forall q :: q in questions ==> !TextMatches(q, Render(Field(body.searchTerm)))
    ensures r.Ok? ==>
      var matches := Select(questions, QuestionContains(Render(Field(body.searchTerm))));
      && 0 < r.value.totalQuestions == |matches|
      && (forall q :: q in matches <==> q in questions && TextMatches(q, Render(Field(body.searchTerm))))
      && r.value.questions == Paginate(matches, PageNumber(page))
  {
    var term := Field(body.searchTerm);
    if term == Str("") then Err(Unprocessable)
    else
      var results := Select(questions, QuestionContains(Render(term)));
      SearchSelectsMatches(questions, Render(term));
      if |results| == 0 then
        Err(NotFound)
      else
        assert results[0] in results;
        Ok(Matches(Paginate(results, PageNumber(page)), |results|))
  }

  // ---------------------------------------------------------------------
  // GET /categories/<id>/questions

  datatype CategoryQuestions = CategoryQuestions(questions: seq<Question>, totalQuestions: nat, category: nat)

  /** GET /categories/<id>/questions: 404 when no question has that
      category; otherwise the requested page of them, their number, and the
      id echoed back. The page may be empty. */
  function QuestionsInCategory(questions: seq<Question>, categoryId: nat, page: PageArg): (r: Result<CategoryQuestions>)
    ensures r.Err? <==> forall q :: q in questions ==> q.category != Num(categoryId)
    ensures r.Err? ==> r.error == NotFound
    ensures r.Ok? ==>
      var results := Select(questions, CategoryIs(Num(categoryId)));
      && r.value.category == categoryId
      && 0 < r.value.totalQuestions == |results|
      && (forall q :: q in results <==> q in questions && q.category == Num(categoryId))
      && r.value.questions == Paginate(results, PageNumber(page))
  {
    var results := Select(questions, CategoryIs(Num(categoryId)));
    if |results| == 0 then
      Err(NotFound)
    else
      assert results[0] in results;
      Ok(CategoryQuestions(Paginate(results, PageNumber(page)), |results|, categoryId))
  }

  // ---------------------------------------------------------------------
  // POST /quizzes

  /** The `quiz_category` object; `None` is a missing key. */
  datatype QuizCategory = QuizCategory(kind: Option<Scalar>, id: Option<Scalar>)

  /** The JSON body of a quiz request. `quizCategory` is `None` when the key
      is missing or its value is not an object (or the body is not one). */
  datatype QuizBody = QuizBody(quizCategory: Option<QuizCategory>, previousQuestions: seq<int>)

  const ALL_CATEGORIES: Scalar := Str("click")

  /** Which questions a quiz round draws from. */
  datatype Pool = Everything | OneCategory(category: Scalar)

  /** The key accesses of the handler, each of which raises on a missing
      key (or a `quiz_category` that is not an object) and so yields 404.
      `id` is read only when `type` is not the "all" sentinel. */
  function QuizPool(body: QuizBody): (r: Result<Pool>)
    ensures r.Err? ==> r.error == NotFound
  {
    match body.quizCategory
    case None => Err(NotFound)
    case Some(qc) =>
      if qc.kind.None? then Err(NotFound)
      else if qc.kind.value == ALL_CATEGORIES then Ok(Everything)
      else if qc.id.None? then Err(NotFound)
      else Ok(OneCategory(qc.id.value))
  }

  /** The unseen questions of the pool. */
  function QuizCandidates(questions: seq<Question>, pool: Pool, previous: seq<int>): (r: seq<Question>)
    ensures forall q :: q in r <==>
      q in questions && q.id !in previous && (pool.OneCategory? ==> q.category == pool.category)
  {
    match pool
    case Everything => Select(questions, IdNotIn(previous))
    case OneCategory(id) => Select(Select(questions, CategoryIs(id)), IdNotIn(previous))
  }

  /** `candidates[random.randrange(0, len(candidates))] if candidates else None`,
      the random index supplied as `pick`. */
  function SelectNext(candidates: seq<Question>, pick: nat): (r: Option<Question>)
    requires candidates == [] || pick < |candidates|
    ensures r.None? <==> candidates == []
    ensures r.Some? ==> r.value in candidates
  {
    if |candidates| > 0 then Some(candidates[pick]) else None
  }

  /** In the first round of an all-categories quiz (`previous_questions`
      empty) every stored question is a candidate, in store order. */
  lemma FirstRoundDrawsFromAll(questions: seq<Question>)
    ensures QuizCandidates(questions, Everything, []) == questions
  {
    SelectAll(questions, IdNotIn([]));
  }

  /** Every candidate is the outcome of some draw. */
  lemma EveryCandidateDrawable(candidates: seq<Question>, q: Question)
    requires q in candidates
    ensures exists pick: nat :: pick < |candidates| && SelectNext(candidates, pick) == Some(q)
  {
    var k :| 0 <= k < |candidates| && candidates[k] == q;
    assert SelectNext(candidates, k) == Some(q);
  }

  /** The random index is drawn from the candidates' range. */
  predicate PickInRange(questions: seq<Question>, body: QuizBody, pick: nat) {
    match QuizPool(body)
    case Err(_) => true
    case Ok(pool) =>
      var candidates := QuizCandidates(questions, pool, body.previousQuestions);
      candidates == [] || pick < |candidates|
  }

  /** POST /quizzes. A body without `quiz_category`, or whose category lacks
      `type` (or lacks `id` when `type` is not "click"), is 404. Otherwise a
      question not among `previous_questions`, of the requested category
      unless `type` is "click", and null exactly when no question qualifies. */
  function PlayQuiz(questions: seq<Question>, body: QuizBody, pick: nat): (r: Result<Option<Question>>)
    requires PickInRange(questions, body, pick)
    ensures r.Err? ==> r.error == NotFound
    ensures r.Err? <==>
      || body.quizCategory.None?
      || body.quizCategory.value.kind.None?
      || (body.quizCategory.value.kind.value != ALL_CATEGORIES && body.quizCategory.value.id.None?)
    ensures r.Ok? && r.value.Some? ==>
      var qc, q := body.quizCategory.value, r.value.value;
      && q in questions
      && q.id !in body.previousQuestions
      && (qc.kind.value != ALL_CATEGORIES ==> q.category == qc.id.value)
    ensures r.Ok? ==>
      var qc := body.quizCategory.value;
      (r.value.None? <==>
        forall q :: q in questions ==>
          q.id in body.previousQuestions || (qc.kind.value != ALL_CATEGORIES && q.category != qc.id.value))
  {
    match QuizPool(body)
    case Err(e) => Err(e)
    case Ok(pool) =>
      var candidates := QuizCandidates(questions, pool, body.previousQuestions);
      if |candidates| > 0 then assert candidates[0] in candidates; Ok(SelectNext(candidates, pick))
      else Ok(SelectNext(candidates, pick))
  }
}
