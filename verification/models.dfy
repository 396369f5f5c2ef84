/**
 * The two stored entities and the queries the handlers run against them:
 * `Question.query.order_by(Question.id).all()`,
 * `Question.query.filter(Question.id == id).one_or_none()`, the deletion of
 * one row, and the `{category.id: category.type}` dictionary.
 */
module Models {

  /** A stored question; `id` is the primary key. */
  datatype Question = Question(id: int, question: string, answer: string, category: string, difficulty: int)

  /** A stored category; `kind` is the column the source calls `type`. */
  datatype Category = Category(id: int, kind: string)

  /** The primary key holds: no two rows share an id. */
  predicate UniqueIds(qs: seq<Question>)
  {
    forall i, j :: 0 <= i < j < |qs| ==> qs[i].id != qs[j].id
  }

  function IdsOf(qs: seq<Question>): set<int>
  {
    set q | q in qs :: q.id
  }

  // ---- ORDER BY id ----

  predicate SortedById(qs: seq<Question>)
  {
    forall i, j :: 0 <= i < j < |qs| ==> qs[i].id <= qs[j].id
  }

  function InsertById(q: Question, sorted: seq<Question>): (r: seq<Question>)
    requires SortedById(sorted)
    ensures SortedById(r)
    ensures multiset(r) == multiset(sorted) + multiset{q}
  {
    if sorted == [] || q.id <= sorted[0].id then
      PrependSorted(q, sorted);
      [q] + sorted
    else
      var rest := InsertById(q, sorted[1..]);
      assert sorted == [sorted[0]] + sorted[1..];
      LowerBoundOfInsert(q, sorted, rest);
      PrependSorted(sorted[0], rest);
      [sorted[0]] + rest
  }

  lemma PrependSorted(h: Question, rest: seq<Question>)
    requires SortedById(rest)
    requires rest == [] || h.id <= rest[0].id
    ensures SortedById([h] + rest)
  {
  }

  /** Inserting a row past the head keeps the head below every row. */
  lemma LowerBoundOfInsert(q: Question, sorted: seq<Question>, rest: seq<Question>)
    requires SortedById(sorted) && sorted != [] && sorted[0].id < q.id
    requires multiset(rest) == multiset(sorted[1..]) + multiset{q}
    ensures rest == [] || sorted[0].id <= rest[0].id
  {
    if rest != [] {
      assert rest[0] in multiset(rest);
      if rest[0] != q {
        assert rest[0] in multiset(sorted[1..]);
        var k :| 0 <= k < |sorted[1..]| && sorted[1..][k] == rest[0];
        assert sorted[k + 1] == rest[0];
      }
    }
  }

  /** `order_by(Question.id)`: the same rows, in ascending id order. */
  function OrderById(qs: seq<Question>): (r: seq<Question>)
    ensures SortedById(r)
    ensures multiset(r) == multiset(qs)
  {
    if qs == [] then []
    else
      assert qs == [qs[0]] + qs[1..];
      InsertById(qs[0], OrderById(qs[1..]))
  }

  // ---- one_or_none ----

  /** What `one_or_none()` finds: no row, exactly one row (at `index`), or
      more than one row (it raises `MultipleResultsFound`). */
  datatype Lookup = NoRow | OneRow(index: nat) | ManyRows

  predicate HasIdAt(qs: seq<Question>, id: int, i: int)
  {
    0 <= i < |qs| && qs[i].id == id
  }

  function OneOrNone(qs: seq<Question>, id: int): (r: Lookup)
    ensures r.NoRow? <==> forall i :: 0 <= i < |qs| ==> qs[i].id != id
    ensures r.OneRow? ==> HasIdAt(qs, id, r.index) && forall j :: 0 <= j < |qs| && j != r.index ==> qs[j].id != id
    ensures r.ManyRows? ==> exists i, j :: i < j && HasIdAt(qs, id, i) && HasIdAt(qs, id, j)
  {
    if qs == [] then NoRow
    else
      var rest := OneOrNone(qs[1..], id);
      assert forall j :: 1 <= j < |qs| ==> qs[j] == qs[1..][j - 1];
      if qs[0].id == id then
        (match rest
         case NoRow => OneRow(0)
         case OneRow(k) => assert HasIdAt(qs, id, 0) && HasIdAt(qs, id, k + 1); ManyRows
         case ManyRows =>
           var i, j :| i < j && HasIdAt(qs[1..], id, i) && HasIdAt(qs[1..], id, j);
           assert HasIdAt(qs, id, i + 1) && HasIdAt(qs, id, j + 1);
           ManyRows)
      else
        (match rest
         case NoRow => NoRow
         case OneRow(k) => OneRow(k + 1)
         case ManyRows =>
           var i, j :| i < j && HasIdAt(qs[1..], id, i) && HasIdAt(qs[1..], id, j);
           assert HasIdAt(qs, id, i + 1) && HasIdAt(qs, id, j + 1);
           ManyRows)
  }

  /** Under the primary key, a lookup by id never finds several rows, and it
      finds one exactly when the id is stored. */
  lemma OneOrNoneUnderPrimaryKey(qs: seq<Question>, id: int)
    requires UniqueIds(qs)
    ensures !OneOrNone(qs, id).ManyRows?
    ensures OneOrNone(qs, id).OneRow? <==> id in IdsOf(qs)
  {
  }

  // ---- deleting one row ----

  /** The rows left once every row with id `id` is gone, in their order. */
  function WithoutId(qs: seq<Question>, id: int): (r: seq<Question>)
    ensures |r| <= |qs|
  {
    if qs == [] then []
    else (if qs[0].id == id then [] else [qs[0]]) + WithoutId(qs[1..], id)
  }

  /** The rows kept are exactly the stored rows with another id. */
  lemma {:induction false} WithoutIdMembers(qs: seq<Question>, id: int)
    ensures forall q :: q in WithoutId(qs, id) <==> q in qs && q.id != id
  {
    if qs != [] {
      WithoutIdMembers(qs[1..], id);
      assert qs == [qs[0]] + qs[1..];
    }
  }

  lemma {:induction false} WithoutAbsentId(qs: seq<Question>, id: int)
    requires forall j :: 0 <= j < |qs| ==> qs[j].id != id
    ensures WithoutId(qs, id) == qs
  {
    if qs != [] {
      WithoutAbsentId(qs[1..], id);
    }
  }

  /** Removing the single row that has id `id` (as `question.delete()` does)
      leaves exactly the rows with other ids, in their order. */
  lemma {:induction false} RemoveSingleMatch(qs: seq<Question>, id: int, i: nat)
    requires HasIdAt(qs, id, i)
    requires forall j :: 0 <= j < |qs| && j != i ==> qs[j].id != id
    ensures WithoutId(qs, id) == qs[..i] + qs[i + 1..]
  {
    var tail := qs[1..];
    assert forall j :: 0 <= j < |tail| ==> tail[j] == qs[j + 1];
    if i == 0 {
      WithoutAbsentId(tail, id);
      assert WithoutId(qs, id) == [] + WithoutId(tail, id);
    } else {
      assert qs[0].id != id;
      RemoveSingleMatch(tail, id, i - 1);
      assert WithoutId(qs, id) == [qs[0]] + WithoutId(tail, id);
      assert tail[..i - 1] == qs[1..i];
      assert tail[i..] == qs[i + 1..];
      assert qs[..i] == [qs[0]] + qs[1..i];
    }
  }

  /** Once its rows are deleted, an id is no longer stored. */
  lemma IdRemoved(qs: seq<Question>, id: int)
    ensures id !in IdsOf(WithoutId(qs, id))
  {
  }

  /** Deleting rows keeps the primary key. */
  lemma {:induction false} WithoutIdKeepsUniqueIds(qs: seq<Question>, id: int)
    requires UniqueIds(qs)
    ensures UniqueIds(WithoutId(qs, id))
  {
    if qs != [] {
      WithoutIdKeepsUniqueIds(qs[1..], id);
      var rest := WithoutId(qs[1..], id);
      WithoutIdMembers(qs[1..], id);
      forall q | q in rest ensures q.id != qs[0].id {
        var k :| 0 <= k < |qs[1..]| && qs[1..][k] == q;
        assert qs[k + 1] == q;
      }
    }
  }

  // ---- {category.id: category.type} ----

  function CategoryIds(cats: seq<Category>): set<int>
  {
    set c | c in cats :: c.id
  }

  /** The dictionary that assigning `categories[c.id] = c.type` for every
      category in turn produces: a later category overwrites an earlier one
      with the same id. */
  function CategoryMap(cats: seq<Category>): (m: map<int, string>)
    ensures m.Keys == CategoryIds(cats)
  {
    if cats == [] then map[]
    else
      var init, last := cats[..|cats| - 1], cats[|cats| - 1];
      assert cats == init + [last];
      CategoryMap(init)[last.id := last.kind]
  }

  /** Each key maps to the type of the LAST category with that id. */
  lemma {:induction false} CategoryMapLastWins(cats: seq<Category>, k: int)
    requires k in CategoryMap(cats)
    ensures exists i :: 0 <= i < |cats| && cats[i].id == k && CategoryMap(cats)[k] == cats[i].kind
                        && forall j :: i < j < |cats| ==> cats[j].id != k
  {
    var init, last := cats[..|cats| - 1], cats[|cats| - 1];
    assert CategoryMap(cats) == CategoryMap(init)[last.id := last.kind];
    if last.id == k {
      assert CategoryMap(cats)[k] == cats[|cats| - 1].kind;
    } else {
      assert k in CategoryMap(init);
      CategoryMapLastWins(init, k);
      var i :| 0 <= i < |init| && init[i].id == k && CategoryMap(init)[k] == init[i].kind
                && forall j :: i < j < |init| ==> init[j].id != k;
      assert cats[i] == init[i];
      assert CategoryMap(cats)[k] == cats[i].kind;
      assert forall j :: i < j < |cats| ==> cats[j].id != k by {
        forall j | i < j < |cats| ensures cats[j].id != k {
          if j < |init| {
            assert cats[j] == init[j];
          }
        }
      }
    }
  }

  predicate UniqueCategoryIds(cats: seq<Category>)
  {
    forall i, j :: 0 <= i < j < |cats| ==> cats[i].id != cats[j].id
  }

  /** With unique category ids, every category's id maps to its own type. */
  lemma CategoryMapOfUniqueIds(cats: seq<Category>, i: nat)
    requires UniqueCategoryIds(cats) && i < |cats|
    ensures cats[i].id in CategoryMap(cats) && CategoryMap(cats)[cats[i].id] == cats[i].kind
  {
    assert cats[i] in cats;
    CategoryMapLastWins(cats, cats[i].id);
  }
}
