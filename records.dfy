/** The two tables the handlers read and write, and the queries they run on
    them: `filter_by`/`filter`, `get`, `order_by(Question.id)`, and the
    `for category in categories` loop that turns the category table into a
    dictionary. */
module Records {
  import opened Wrappers

  /** A row of the `question` table, as `Question.format()` reports it. */
  datatype Question = Question(id: int, question: string, answer: string, category: int, difficulty: int)

  /** A row of the `category` table; `kind` is the column the source calls `type`. */
  datatype Category = Category(id: int, kind: string)

  /** `id` is the primary key of the question table. */
  predicate DistinctQuestionIds(qs: seq<Question>)
  {
    forall i, j :: 0 <= i < j < |qs| ==> qs[i].id != qs[j].id
  }

  /** `id` is the primary key of the category table. */
  predicate DistinctCategoryIds(cs: seq<Category>)
  {
    forall i, j :: 0 <= i < j < |cs| ==> cs[i].id != cs[j].id
  }

  function QuestionIds(qs: seq<Question>): set<int>
  {
    set q | q in qs :: q.id
  }

  function CategoryIds(cs: seq<Category>): set<int>
  {
    set c | c in cs :: c.id
  }

  // ---------------------------------------------------------------------
  // Filtering queries

  /** The rows of `qs` that satisfy `keep`, in table order, none more often
      than in the table. */
  function Filter(qs: seq<Question>, keep: Question -> bool): (r: seq<Question>)
    ensures |r| <= |qs|
    ensures forall q :: q in r <==> q in qs && keep(q)
    ensures multiset(r) <= multiset(qs)
  {
    if qs == [] then []
    else
      assert qs == [qs[0]] + qs[1..];
      (if keep(qs[0]) then [qs[0]] else []) + Filter(qs[1..], keep)
  }

  /** Each kept row appears as often as in the table, each other row not at
      all; under the primary key, the length of a filter is the number of
      matching rows. */
  lemma {:induction false} FilterCounts(qs: seq<Question>, keep: Question -> bool)
    ensures forall q :: multiset(Filter(qs, keep))[q] == if keep(q) then multiset(qs)[q] else 0
  {
    if qs != [] {
      assert qs == [qs[0]] + qs[1..];
      FilterCounts(qs[1..], keep);
    }
  }

  /** Filtering keeps table order: the matches of a table split in two are
      the matches of the first part followed by those of the second. */
  lemma {:induction false} FilterConcat(a: seq<Question>, b: seq<Question>, keep: Question -> bool)
    ensures Filter(a + b, keep) == Filter(a, keep) + Filter(b, keep)
  {
    if a == [] {
      assert a + b == b;
    } else {
      assert (a + b)[1..] == a[1..] + b;
      FilterConcat(a[1..], b, keep);
    }
  }

  /** `Question.query.filter_by(category=id).all()`. */
  function InCategory(qs: seq<Question>, id: int): seq<Question>
  {
    Filter(qs, (q: Question) => q.category == id)
  }

  /** The question table after `question.delete()` of the row with key `id`. */
  function WithoutId(qs: seq<Question>, id: int): seq<Question>
  {
    Filter(qs, (q: Question) => q.id != id)
  }

  lemma {:induction false} WithoutAbsentId(qs: seq<Question>, id: int)
    requires id !in QuestionIds(qs)
    ensures WithoutId(qs, id) == qs
  {
    if qs != [] {
      assert qs[0] in qs;
      assert QuestionIds(qs[1..]) <= QuestionIds(qs) by {
        forall q | q in qs[1..] ensures q in qs { }
      }
      WithoutAbsentId(qs[1..], id);
      assert qs == [qs[0]] + qs[1..];
    }
  }

  /** Deleting the row with key `id` removes exactly that row and leaves every
      other row where it was. */
  lemma {:induction false} WithoutIdRemovesOne(qs: seq<Question>, id: int, i: int)
    requires DistinctQuestionIds(qs)
    requires 0 <= i < |qs| && qs[i].id == id
    ensures WithoutId(qs, id) == qs[..i] + qs[i + 1..]
  {
    if i == 0 {
      assert id !in QuestionIds(qs[1..]) by {
        forall q | q in qs[1..] ensures q.id != id {
          var k :| 0 <= k < |qs[1..]| && qs[1..][k] == q;
          assert qs[k + 1] == q;
        }
      }
      WithoutAbsentId(qs[1..], id);
    } else {
      assert qs[0].id != id;
      WithoutIdRemovesOne(qs[1..], id, i - 1);
      assert qs[1..][..i - 1] + qs[1..][i..] == qs[1..i] + qs[i + 1..];
      assert qs[..i] == [qs[0]] + qs[1..i];
    }
  }

  /** Removing one row keeps the primary key distinct. */
  lemma RemovalKeepsIdsDistinct(qs: seq<Question>, i: int)
    requires DistinctQuestionIds(qs) && 0 <= i < |qs|
    ensures DistinctQuestionIds(qs[..i] + qs[i + 1..])
  {
  }

  /** Appending a row whose key is new keeps the primary key distinct. */
  lemma AppendKeepsIdsDistinct(qs: seq<Question>, q: Question)
    requires DistinctQuestionIds(qs) && q.id !in QuestionIds(qs)
    ensures DistinctQuestionIds(qs + [q])
  {
  }

  // ---------------------------------------------------------------------
  // Lookups by primary key

  /** `Question.query.get(id)`: the row with key `id`, or `None`. */
  function FindQuestion(qs: seq<Question>, id: int): (r: Option<Question>)
    ensures r.Some? ==> r.value in qs && r.value.id == id
    ensures r.None? <==> id !in QuestionIds(qs)
  {
    if qs == [] then None
    else if qs[0].id == id then Some(qs[0])
    else
      assert QuestionIds(qs) == {qs[0].id} + QuestionIds(qs[1..]) by {
        assert qs == [qs[0]] + qs[1..];
      }
      FindQuestion(qs[1..], id)
  }

  /** `Category.query.filter_by(id=id).one_or_none()`: the row with key `id`, or `None`. */
  function FindCategory(cs: seq<Category>, id: int): (r: Option<Category>)
    ensures r.Some? ==> r.value in cs && r.value.id == id
    ensures r.None? <==> id !in CategoryIds(cs)
  {
    if cs == [] then None
    else if cs[0].id == id then Some(cs[0])
    else
      assert CategoryIds(cs) == {cs[0].id} + CategoryIds(cs[1..]) by {
        assert cs == [cs[0]] + cs[1..];
      }
      FindCategory(cs[1..], id)
  }

  /** Under a primary key, the row `FindCategory` returns is the only one with that key. */
  lemma FoundCategoryIsUnique(cs: seq<Category>, id: int)
    ensures DistinctCategoryIds(cs) ==> forall c :: c in cs && c.id == id ==> FindCategory(cs, id) == Some(c)
  {
  }

  // ---------------------------------------------------------------------
  // `order_by(Question.id)`

  predicate SortedById(qs: seq<Question>)
  {
    forall i, j :: 0 <= i < j < |qs| ==> qs[i].id <= qs[j].id
  }

  function InsertById(q: Question, qs: seq<Question>): (r: seq<Question>)
    ensures multiset(r) == multiset(qs) + multiset{q}
  {
    if qs == [] || q.id <= qs[0].id then [q] + qs
    else
      assert qs == [qs[0]] + qs[1..];
      [qs[0]] + InsertById(q, qs[1..])
  }

  lemma {:induction false} InsertByIdSorted(q: Question, qs: seq<Question>)
    requires SortedById(qs)
    ensures SortedById(InsertById(q, qs))
  {
    if qs != [] && q.id > qs[0].id {
      InsertByIdSorted(q, qs[1..]);
      var rest := InsertById(q, qs[1..]);
      forall x | x in rest ensures qs[0].id <= x.id {
        assert x in multiset(rest);
        assert x == q || x in multiset(qs[1..]);
      }
      assert forall k :: 0 < k < |[qs[0]] + rest| ==> ([qs[0]] + rest)[k] in rest;
    }
  }

  /** The question table as `Question.query.order_by(Question.id).all()` returns it. */
  function SortById(qs: seq<Question>): (r: seq<Question>)
    ensures multiset(r) == multiset(qs)
    ensures SortedById(r)
  {
    if qs == [] then []
    else
      assert qs == [qs[0]] + qs[1..];
      InsertByIdSorted(qs[0], SortById(qs[1..]));
      InsertById(qs[0], SortById(qs[1..]))
  }

  lemma SortByIdSameRows(qs: seq<Question>)
    ensures |SortById(qs)| == |qs|
    ensures forall q :: q in SortById(qs) <==> q in qs
  {
    var r := SortById(qs);
    assert |r| == |multiset(r)| == |multiset(qs)| == |qs|;
    assert forall q :: q in r <==> q in multiset(r);
  }

  // ---------------------------------------------------------------------
  // The categories dictionary

  /** `{category.id: category.type}` as the loop over `cs` builds it: an entry
      per row, a later row overwriting an earlier one with the same key. */
  function CategoryDict(cs: seq<Category>): (m: map<int, string>)
    ensures m.Keys == CategoryIds(cs)
  {
    if cs == [] then map[]
    else
      var init, last := cs[..|cs| - 1], cs[|cs| - 1];
      assert cs == init + [last];
      assert CategoryIds(cs) == CategoryIds(init) + {last.id};
      CategoryDict(init)[last.id := last.kind]
  }

  /** The entry for a key is the `type` of the last row with that key. */
  lemma {:induction false} CategoryDictLastWins(cs: seq<Category>, j: int)
    requires 0 <= j < |cs|
    requires forall k :: j < k < |cs| ==> cs[k].id != cs[j].id
    ensures cs[j].id in CategoryDict(cs) && CategoryDict(cs)[cs[j].id] == cs[j].kind
  {
    if j < |cs| - 1 {
      var init := cs[..|cs| - 1];
      assert forall k :: j < k < |init| ==> init[k] == cs[k];
      CategoryDictLastWins(init, j);
    }
  }

  /** With a primary key every row's id maps to that row's `type`. */
  lemma CategoryDictOfDistinct(cs: seq<Category>)
    requires DistinctCategoryIds(cs)
    ensures forall c :: c in cs ==> CategoryDict(cs)[c.id] == c.kind
  {
  }

  /** With a primary key the dictionary does not depend on the order the rows
      come in: `Category.query.all()` and `order_by(Category.id)` give the
      same map. */
  lemma CategoryDictOrderIrrelevant(a: seq<Category>, b: seq<Category>)
    requires DistinctCategoryIds(a) && DistinctCategoryIds(b)
    requires forall c :: c in a <==> c in b
    ensures CategoryDict(a) == CategoryDict(b)
  {
    CategoryDictOfDistinct(a);
    CategoryDictOfDistinct(b);
    assert CategoryIds(a) == CategoryIds(b);
    forall k | k in CategoryDict(a) ensures CategoryDict(a)[k] == CategoryDict(b)[k] {
      var c :| c in a && c.id == k;
    }
  }

  /** The `for category in categories: categories_dict[category.id] = category.type` loop. */
  method BuildCategoryMap(cs: seq<Category>) returns (m: map<int, string>)
    ensures m == CategoryDict(cs)
  {
    m := map[];
    for k := 0 to |cs|
      invariant m == CategoryDict(cs[..k])
    {
      assert cs[..k + 1][..k] == cs[..k];
      m := m[cs[k].id := cs[k].kind];
    }
    assert cs[..|cs|] == cs;
  }
}
