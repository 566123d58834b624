/** The request handlers of the trivia backend, taken apart from Flask and
    SQLAlchemy. The database is a `TriviaStore` holding the question and
    category tables; every handler takes the already-parsed request and
    answers with a status and a JSON payload. */
module TriviaApi {
  import opened Wrappers
  import opened JsonValues
  import opened Pagination
  import opened TextMatch
  import opened Records
  import opened Responses

  // ---------------------------------------------------------------------
  // POST /questions: validation and the new row

  /** The fields `create_question` reads, in the order it tests them. */
  const CreateFields: seq<string> := ["question", "answer", "difficulty", "category"]

  /** `data.get(key, '')`: a missing field reads as the empty string. */
  function CreateField(body: Body, key: string): JsonValue
  {
    Get(body, key, JStr(""))
  }

  /** The handler's test `value == ''`: only the empty string fails it. */
  predicate Blank(v: JsonValue)
  {
    v == JStr("")
  }

  /** The first field, in the order the handler tests them, that reads as
      `''`; `None` when all four pass and the handler goes on to insert. */
  function FirstBlankField(body: Body): (r: Option<string>)
    ensures r.None? <==> forall k :: k in CreateFields ==> !Blank(CreateField(body, k))
    ensures r.Some? ==> exists i :: 0 <= i < |CreateFields| && CreateFields[i] == r.value
                          && Blank(CreateField(body, r.value))
                          && forall j :: 0 <= j < i ==> !Blank(CreateField(body, CreateFields[j]))
  {
    if Blank(CreateField(body, "question")) then
      assert CreateFields[0] == "question";
      Some("question")
    else if Blank(CreateField(body, "answer")) then
      assert CreateFields[1] == "answer";
      Some("answer")
    else if Blank(CreateField(body, "difficulty")) then
      assert CreateFields[2] == "difficulty";
      Some("difficulty")
    else if Blank(CreateField(body, "category")) then
      assert CreateFields[3] == "category";
      Some("category")
    else None
  }

  /** Leaving a field out and sending it as `''` are the same request. */
  lemma MissingFieldIsBlank(body: Body, key: string)
    ensures FirstBlankField(body - {key}) == FirstBlankField(body[key := JStr("")])
  {
  }

  /** The row `Question(...).insert()` stores under the key `id` the database
      hands out, or `None` when the database refuses one of the values (the
      `except Exception` branch). */
  function NewRecord(body: Body, id: int): Option<Question>
  {
    var question := TextColumn(CreateField(body, "question"));
    var answer := TextColumn(CreateField(body, "answer"));
    var difficulty := IntColumn(CreateField(body, "difficulty"));
    var category := IntColumn(CreateField(body, "category"));
    if question.Some? && answer.Some? && difficulty.Some? && category.Some? then
      Some(Question(id, question.value, answer.value, category.value, difficulty.value))
    else None
  }

  /** A request whose texts are strings and whose `difficulty` and `category`
      are integers, sent as numbers or as their decimal strings (the tests
      send `'category': '1'`), passes validation and stores exactly those
      values. */
  lemma NewRecordKeepsValues(body: Body, id: int, question: string, answer: string,
                             difficulty: int, category: int)
    requires question != "" && answer != ""
    requires "question" in body && body["question"] == JStr(question)
    requires "answer" in body && body["answer"] == JStr(answer)
    requires "difficulty" in body
    requires body["difficulty"] == JInt(difficulty) || body["difficulty"] == JStr(IntToDecimal(difficulty))
    requires "category" in body
    requires body["category"] == JInt(category) || body["category"] == JStr(IntToDecimal(category))
    ensures FirstBlankField(body).None?
    ensures NewRecord(body, id) == Some(Question(id, question, answer, category, difficulty))
  {
    IntColumnReadsRendering(difficulty);
    IntColumnReadsRendering(category);
    assert NatToDecimal(if difficulty < 0 then -difficulty else difficulty) != "";
    assert NatToDecimal(if category < 0 then -category else category) != "";
  }

  // ---------------------------------------------------------------------
  // POST /questions/search

  /** `data.get('searchterm', '')`. */
  function SearchTerm(body: Body): JsonValue
  {
    Get(body, "searchterm", JStr(""))
  }

  /** `Question.query.filter(Question.question.ilike(f'%{search_term}%')).all()`. */
  function SearchMatches(qs: seq<Question>, term: string): seq<Question>
  {
    Filter(qs, (q: Question) => ContainsIgnoringCase(q.question, term))
  }

  /** `search_questions`: 422 for a blank term, 404 when no question text
      contains the term (the `abort(404)` inside the `try` is caught and
      raised again as 404), otherwise 200 with one page of the matches and
      their unsliced count, even when that page is empty. */
  function SearchQuestions(qs: seq<Question>, body: Body, page: Option<int>): (r: Response)
    ensures r.status == 422 <==> Blank(SearchTerm(body))
    ensures r.status == 404 <==> !Blank(SearchTerm(body))
                                 && forall q :: q in qs ==> !ContainsIgnoringCase(q.question, PyStr(SearchTerm(body)))
    ensures !r.Success() ==> r == Abort(Unprocessable) || r == Abort(NotFound)
    ensures r.Success() ==>
              var matches := SearchMatches(qs, PyStr(SearchTerm(body)));
              && r.status == 200 && r.payload.SearchPage?
              && r.payload.questions == PageWindow(matches, PageNumber(page))
              && r.payload.totalQuestions == |matches|
              && |matches| > 0
              && |r.payload.questions| <= PageSize
              && forall q :: q in r.payload.questions ==>
                               q in qs && ContainsIgnoringCase(q.question, PyStr(SearchTerm(body)))
  {
    var term := SearchTerm(body);
    if Blank(term) then Abort(Unprocessable)
    else
      var matches := SearchMatches(qs, PyStr(term));
      if |matches| == 0 then
        Abort(NotFound)
      else
        assert matches[0] in qs && ContainsIgnoringCase(matches[0].question, PyStr(term));
        Response(200, SearchPage(PageWindow(matches, PageNumber(page)), |matches|))
  }

  // ---------------------------------------------------------------------
  // GET /categories/<id>/questions

  /** `get_questions_by_category`: 422 when no category has key `id`;
      otherwise 200 with one page of that category's questions, their
      unsliced count and the category's `type`, even when the page is empty. */
  function QuestionsByCategory(qs: seq<Question>, cs: seq<Category>, id: int, page: Option<int>): (r: Response)
    ensures r.status == 422 <==> id !in CategoryIds(cs)
    ensures r.status == 422 ==> r == Abort(Unprocessable)
    ensures r.status != 422 ==>
              && r.status == 200 && r.payload.CategoryPage?
              && r.payload.questions == PageWindow(InCategory(qs, id), PageNumber(page))
              && r.payload.totalQuestions == |InCategory(qs, id)|
              && |r.payload.questions| <= PageSize
              && (forall q :: q in r.payload.questions ==> q in qs && q.category == id)
              && (exists c :: c in cs && c.id == id && c.kind == r.payload.currentCategory)
    ensures DistinctCategoryIds(cs) && r.status == 200 ==>
              forall c :: c in cs && c.id == id ==> r.payload.currentCategory == c.kind
  {
    match FindCategory(cs, id)
    case None => Abort(Unprocessable)
    case Some(category) =>
      FoundCategoryIsUnique(cs, id);
      var matches := InCategory(qs, id);
      Response(200, CategoryPage(PageWindow(matches, PageNumber(page)), |matches|, category.kind))
  }

  // ---------------------------------------------------------------------
  // POST /quizzes

  /** The `quiz_category` object; `id` is `None` when the object has no `id` key. */
  datatype QuizCategory = QuizCategory(id: Option<int>)

  /** The quiz request body; a field is `None` when it is absent or `null`. */
  datatype QuizRequest = QuizRequest(previousQuestions: Option<seq<int>>, quizCategory: Option<QuizCategory>)

  predicate HasQuizFields(request: QuizRequest)
  {
    request.previousQuestions.Some? && request.quizCategory.Some?
  }

  /** The questions the quiz draws from: all of them for category 0, else
      `Question.query.filter_by(category=id).all()`. */
  function QuizPool(qs: seq<Question>, categoryId: int): (pool: seq<Question>)
    ensures forall q :: q in pool <==> q in qs && (categoryId == 0 || q.category == categoryId)
  {
    if categoryId == 0 then qs else InCategory(qs, categoryId)
  }

  /** Every question of the pool has been asked already. */
  predicate AllAsked(pool: seq<Question>, previous: seq<int>)
  {
    forall q :: q in pool ==> q.id in previous
  }

  // ---------------------------------------------------------------------
  // The database and the handlers that read or change it

  class TriviaStore {
    var questions: seq<Question>
    var categories: seq<Category>

    /** Both tables keep their primary key. */
    ghost predicate Valid()
      reads this
    {
      DistinctQuestionIds(questions) && DistinctCategoryIds(categories)
    }

    constructor (qs: seq<Question>, cs: seq<Category>)
      requires DistinctQuestionIds(qs) && DistinctCategoryIds(cs)
      ensures Valid() && questions == qs && categories == cs
    {
      questions := qs;
      categories := cs;
    }

    /** `GET /categories`: every category id maps to its `type`. */
    method GetCategories() returns (r: Response)
      requires Valid()
      ensures r.status == 200 && r.payload.CategoryList?
      ensures r.payload.categories.Keys == CategoryIds(categories)
      ensures forall c :: c in categories ==> r.payload.categories[c.id] == c.kind
    {
      var dict := BuildCategoryMap(categories);
      CategoryDictOfDistinct(categories);
      r := Response(200, CategoryList(dict));
    }

    /** `GET /questions`: 404 exactly when the page window is empty; otherwise
        200 with the window of the id-ordered questions, the unsliced count
        and the full category map. */
    method GetQuestions(page: Option<int>) returns (r: Response)
      requires Valid()
      ensures r.status == 404 <==> PageIsEmpty(|questions|, PageNumber(page))
      ensures r.status == 404 ==> r == Abort(NotFound)
      ensures r.status != 404 ==>
                r == Response(200, QuestionPage(PageWindow(SortById(questions), PageNumber(page)),
                                                |questions|, CategoryDict(categories)))
      ensures r.status == 200 ==>
                && 0 < |r.payload.questions| <= PageSize
                && (forall q :: q in r.payload.questions ==> q in questions)
                && (forall c :: c in categories ==> r.payload.categories[c.id] == c.kind)
    {
      var p := PageNumber(page);
      var ordered := SortById(questions);
      SortByIdSameRows(questions);
      var current := PageWindow(ordered, p);
      PageWindowEmptyIff(ordered, p);
      if |current| == 0 {
        r := Abort(NotFound);
        return;
      }
      var dict := BuildCategoryMap(categories);
      CategoryDictOfDistinct(categories);
      r := Response(200, QuestionPage(current, |ordered|, dict));
    }

    /** `DELETE /questions/<id>`: the row with key `id` goes and every other
        row stays where it was; with no such row the `question.delete()` on
        `None` raises and the answer is 422. */
    method DeleteQuestion(id: int) returns (r: Response)
      requires Valid()
      modifies this
      ensures Valid() && categories == old(categories)
      ensures id !in QuestionIds(old(questions)) ==> r == Abort(Unprocessable) && questions == old(questions)
      ensures id in QuestionIds(old(questions)) ==>
                r == Response(200, Confirmation(DeletedMessage)) && |questions| == |old(questions)| - 1
      ensures forall i :: 0 <= i < |old(questions)| && old(questions)[i].id == id ==>
                questions == old(questions)[..i] + old(questions)[i + 1..]
    {
      var found := FindQuestion(questions, id);
      if found.None? {
        r := Abort(Unprocessable);
        return;
      }
      var i :| 0 <= i < |questions| && questions[i] == found.value;
      assert forall j :: 0 <= j < |questions| && questions[j].id == id ==> j == i;
      WithoutIdRemovesOne(questions, id, i);
      RemovalKeepsIdsDistinct(questions, i);
      questions := WithoutId(questions, id);
      r := Response(200, Confirmation(DeletedMessage));
    }

    /** `POST /questions`: 422 when one of the four fields is missing or
        `''`, or when the database refuses a value; otherwise exactly one row
        with the request's values and the fresh key `newId` is added and the
        answer is 201. */
    method CreateQuestion(body: Body, newId: int) returns (r: Response)
      requires Valid()
      requires newId !in QuestionIds(questions)
      modifies this
      ensures Valid() && categories == old(categories)
      ensures FirstBlankField(body).Some? ==> r == Abort(Unprocessable) && questions == old(questions)
      ensures FirstBlankField(body).None? && NewRecord(body, newId).None? ==>
                r == Abort(Unprocessable) && questions == old(questions)
      ensures FirstBlankField(body).None? && NewRecord(body, newId).Some? ==>
                && r == Response(201, Confirmation(CreatedMessage))
                && questions == old(questions) + [NewRecord(body, newId).value]
    {
      if FirstBlankField(body).Some? {
        r := Abort(Unprocessable);
        return;
      }
      var row := NewRecord(body, newId);
      if row.None? {
        r := Abort(Unprocessable);
        return;
      }
      AppendKeepsIdsDistinct(questions, row.value);
      questions := questions + [row.value];
      r := Response(201, Confirmation(CreatedMessage));
    }

    /** `POST /quizzes`. 400 without `previous_questions` or `quiz_category`;
        500 when `quiz_category` has no `id` or the pool is empty (`randint(0,
        -1)` raises). Otherwise a random question is drawn, and drawn again
        while its id was asked before; each `random.randint` is a free choice
        of index. `maxRedraws` bounds the redraws the model lets the loop make:
        `None` means the loop is still drawing. The answer, when there is one,
        is in the pool and was not asked before; when every question of the
        pool was asked, no number of redraws ends the loop. */
    method PlayQuiz(request: QuizRequest, maxRedraws: nat) returns (r: Option<Response>)
      ensures !HasQuizFields(request) ==> r == Some(Abort(BadRequest))
      ensures HasQuizFields(request) && request.quizCategory.value.id.None? ==>
                r == Some(Abort(InternalError))
      ensures HasQuizFields(request) && request.quizCategory.value.id.Some? ==>
                var pool := QuizPool(questions, request.quizCategory.value.id.value);
                var previous := request.previousQuestions.value;
                && (pool == [] ==> r == Some(Abort(InternalError)))
                && (pool != [] && AllAsked(pool, previous) ==> r == None)
                && (pool != [] && (forall q :: q in pool ==> q.id !in previous) ==> r.Some?)
                && (pool != [] && r.Some? ==>
                      && r.value.status == 200 && r.value.payload.QuizQuestion?
                      && r.value.payload.question in pool
                      && r.value.payload.question.id !in previous)
    {
      if request.quizCategory.None? || request.previousQuestions.None? {
        return Some(Abort(BadRequest));
      }
      var previous := request.previousQuestions.value;
      var categoryId := request.quizCategory.value.id;
      if categoryId.None? {
        return Some(Abort(InternalError));
      }
      var pool := QuizPool(questions, categoryId.value);
      if |pool| == 0 {
        return Some(Abort(InternalError));
      }
      var i :| 0 <= i < |pool|;
      var next := pool[i];
      var found := true;
      var redraws := 0;
      while found
        invariant redraws <= maxRedraws
        invariant next in pool
        invariant !found ==> next.id !in previous
        invariant AllAsked(pool, previous) ==> found
        invariant (forall q :: q in pool ==> q.id !in previous) ==> next.id !in previous
        decreases maxRedraws - redraws, found
      {
        if next.id in previous {
          if redraws == maxRedraws {
            return None;
          }
          var j :| 0 <= j < |pool|;
          next := pool[j];
          redraws := redraws + 1;
        } else {
          found := false;
        }
      }
      r := Some(Response(200, QuizQuestion(next)));
    }
  }
}
