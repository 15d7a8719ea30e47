/** The question store and the two handlers that change it: POST /questions
    inserts a row under a fresh id, DELETE /questions/<id> removes one. */
module TriviaStore {
  import opened Outcomes
  import opened Pagination
  import opened Trivia

  /** The JSON body of POST /questions; `None` is a missing key. */
  datatype NewQuestionBody = NewQuestionBody(
    question: Option<Scalar>,
    answer: Option<Scalar>,
    category: Option<Scalar>,
    difficulty: Option<Scalar>)

  /** A field is provided when its key is present with a value other than the empty string. */
  predicate Provided(v: Option<Scalar>) {
    v.Some? && v.value != Str("")
  }

  /** The validation of create: every field is read with `body.get(key, '')`
      and compared with `''`. */
  predicate Rejected(body: NewQuestionBody) {
    || Field(body.question) == Str("")
    || Field(body.answer) == Str("")
    || Field(body.category) == Str("")
    || Field(body.difficulty) == Str("")
  }

  /** A body is rejected exactly when some field is missing or the empty
      string; a numeric 0 is neither, so it is accepted. */
  lemma RejectedIff(body: NewQuestionBody)
    ensures Rejected(body) <==>
      !(Provided(body.question) && Provided(body.answer) && Provided(body.category) && Provided(body.difficulty))
  {
  }

  /** The body of the end-to-end example, with a numeric 0 in place of the
      numbers, passes validation; the body with empty question and answer
      does not. */
  lemma ValidationExamples()
    ensures !Rejected(NewQuestionBody(Some(Str("q")), Some(Str("a")), Some(Num(0)), Some(Num(0))))
    ensures Rejected(NewQuestionBody(Some(Str("")), Some(Str("")), Some(Num(1)), Some(Num(1))))
    ensures Rejected(NewQuestionBody(Some(Str("q")), Some(Str("a")), None, Some(Num(1))))
  {
  }

  /** The row create inserts under `id`. */
  function NewRow(id: int, body: NewQuestionBody): Question {
    Question(id, Field(body.question), Field(body.answer), Field(body.category), Field(body.difficulty))
  }

  datatype Creation = Creation(created: int, questions: seq<Question>, totalQuestions: nat)

  /** The store's question table: ids are positive, ascending (so unique)
      and all below the next id the id sequence hands out. */
  predicate StoreInvariant(qs: seq<Question>, nextId: int) {
    && 1 <= nextId
    && IdsIncreasing(qs)
    && forall i :: 0 <= i < |qs| ==> 1 <= qs[i].id < nextId
  }

  /** Appending a row under the next id keeps the invariant, once the
      counter advances. */
  lemma AppendKeepsInvariant(qs: seq<Question>, nextId: int, row: Question)
    requires StoreInvariant(qs, nextId) && row.id == nextId
    ensures StoreInvariant(qs + [row], nextId + 1)
    ensures forall i :: 0 <= i < |qs| ==> qs[i].id != row.id
  {
  }

  /** Re-reading a freshly inserted row by its id finds that row alone. */
  lemma {:induction false} FreshRowIsOnlyMatch(qs: seq<Question>, row: Question)
    requires forall i :: 0 <= i < |qs| ==> qs[i].id != row.id
    ensures Select(qs + [row], IdIs(row.id)) == [row]
  {
    SelectAppend(qs, [row], IdIs(row.id));
    SelectNone(qs, IdIs(row.id));
    assert [row][1..] == [];
  }

  /** The table after `question.delete()` of the row with `id`, if there is one. */
  function Remove(qs: seq<Question>, id: int): seq<Question> {
    match Lookup(qs, id)
    case None => qs
    case Some(k) => qs[..k] + qs[k + 1..]
  }

  /** The table without its row at index `k`: row j of the rest is row j
      of the table before `k` and row j + 1 from `k` on. */
  lemma DropIndex(qs: seq<Question>, k: nat)
    requires k < |qs|
    ensures var rest := qs[..k] + qs[k + 1..];
      && |rest| == |qs| - 1
      && forall j :: 0 <= j < |rest| ==> rest[j] == qs[if j < k then j else j + 1]
  {
  }

  /** Deleting removes exactly the row with that id, keeps the order of the
      others, and shortens the table by one. */
  lemma RemoveDropsOnlyThatRow(qs: seq<Question>, id: int)
    requires IdsIncreasing(qs) && Lookup(qs, id).Some?
    ensures var rest := Remove(qs, id);
      && |rest| == |qs| - 1
      && IdsIncreasing(rest)
      && forall q :: q in rest <==> q in qs && q.id != id
  {
    var k := Lookup(qs, id).value;
    var rest := qs[..k] + qs[k + 1..];
    assert rest == Remove(qs, id);
    DropIndex(qs, k);
    forall i, j | 0 <= i < j < |rest| ensures rest[i].id < rest[j].id {
      assert rest[i] == qs[if i < k then i else i + 1];
      assert rest[j] == qs[if j < k then j else j + 1];
    }
    forall q | q in rest ensures q in qs && q.id != id {
      var j :| 0 <= j < |rest| && rest[j] == q;
      var at := if j < k then j else j + 1;
      assert q == qs[at] && at != k;
    }
    forall q | q in qs && q.id != id ensures q in rest {
      var j :| 0 <= j < |qs| && qs[j] == q;
      assert j != k;
      if j < k { assert rest[j] == q; } else { assert rest[j - 1] == q; }
    }
  }

  /** Deleting the row just appended restores the table. */
  lemma RemoveUndoesAppend(qs: seq<Question>, row: Question)
    requires forall q :: q in qs ==> q.id != row.id
    ensures Remove(qs + [row], row.id) == qs
  {
    var all := qs + [row];
    assert all[|qs|] == row;
    var k := Lookup(all, row.id).value;
    assert forall j :: 0 <= j < |qs| ==> all[j] == qs[j] && all[j] in qs;
    assert all[..k] == qs;
  }

  class Store {
    var questions: seq<Question>
    var categories: seq<Category>
    var nextId: int

    ghost predicate Valid()
      reads this
    {
      StoreInvariant(questions, nextId) && CategoryIdsUnique(categories)
    }

    /** A store over pre-seeded rows. */
    constructor (questions: seq<Question>, categories: seq<Category>, nextId: int)
      requires StoreInvariant(questions, nextId) && CategoryIdsUnique(categories)
      ensures Valid()
      ensures this.questions == questions && this.categories == categories && this.nextId == nextId
    {
      this.questions := questions;
      this.categories := categories;
      this.nextId := nextId;
    }

    /** POST /questions. A rejected body is 422 and changes nothing.
        Otherwise one row is appended under a fresh id, the others stay as
        they were, and the answer holds the new id, the page of the
        one-row re-read (the row itself on page 1, nothing on any other
        page) and the new number of questions. */
    method CreateQuestion(body: NewQuestionBody, page: PageArg) returns (r: Result<Creation>)
      requires Valid()
      modifies this`questions, this`nextId
      ensures Valid()
      ensures r.Err? <==> Rejected(body)
      ensures r.Err? ==> r.error == Unprocessable && questions == old(questions) && nextId == old(nextId)
      ensures r.Ok? ==>
        && r.value.created == old(nextId)
        && (forall q :: q in old(questions) ==> q.id != r.value.created)
        && questions == old(questions) + [NewRow(r.value.created, body)]
        && nextId == old(nextId) + 1
        && r.value.questions == (if PageNumber(page) == 1 then [NewRow(r.value.created, body)] else [])
        && r.value.totalQuestions == |old(questions)| + 1
    {
      if Rejected(body) {
        return Err(Unprocessable);
      }
      var row := NewRow(nextId, body);
      AppendKeepsInvariant(questions, nextId, row);
      FreshRowIsOnlyMatch(questions, row);
      questions := questions + [row];
      nextId := nextId + 1;
      var selection := Select(questions, IdIs(row.id));
      assert selection == [row];
      var current := Paginate(selection, PageNumber(page));
      SingletonPage(row, PageNumber(page));
      r := Ok(Creation(row.id, current, |questions|));
    }

    /** DELETE /questions/<id>. The row with that id is removed and its id
        returned. A missing id raises 404 inside the handler's `try`, whose
        bare `except` answers 422 instead; the table is then unchanged. */
    method DeleteQuestion(questionId: nat) returns (r: Result<nat>)
      requires Valid()
      modifies this`questions
      ensures Valid()
      ensures r.Ok? <==> exists q :: q in old(questions) && q.id == questionId
      ensures r.Err? ==> r.error == Unprocessable && questions == old(questions)
      ensures r.Ok? ==>
        && r.value == questionId
        && questions == Remove(old(questions), questionId)
        && |questions| == |old(questions)| - 1
        && forall q :: q in questions <==> q in old(questions) && q.id != questionId
    {
      match Lookup(questions, questionId)
      case None =>
        r := Err(Unprocessable);
      case Some(k) =>
        RemoveDropsOnlyThatRow(questions, questionId);
        questions := Remove(questions, questionId);
        r := Ok(questionId);
    }
  }

  /** Create a question, delete it, delete it again: the first delete
      returns the created id and restores the table, the second is 422. */
  method CreateThenDelete(store: Store, body: NewQuestionBody, page: PageArg)
    returns (created: Result<Creation>, first: Result<nat>, second: Result<nat>)
    requires store.Valid() && !Rejected(body)
    modifies store
    ensures store.Valid()
    ensures created.Ok? && created.value.created >= 1
    ensures first == Ok(created.value.created as nat)
    ensures second == Err(Unprocessable)
    ensures store.questions == old(store.questions) && store.categories == old(store.categories)
  {
    created := store.CreateQuestion(body, page);
    var id := created.value.created as nat;
    RemoveUndoesAppend(old(store.questions), NewRow(id, body));
    first := store.DeleteQuestion(id);
    second := store.DeleteQuestion(id);
  }
}
