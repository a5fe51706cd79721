/** Sorting by a strict order, as Python's sorted() does it for keys that never tie. */
module Sorting {

  ghost predicate StrictTotal<T(!new)>(before: (T, T) -> bool) {
    && (forall x, y, z :: before(x, y) && before(y, z) ==> before(x, z))
    && (forall x, y :: x != y ==> before(x, y) || before(y, x))
    && (forall x :: !before(x, x))
  }

  /** Every element comes before every later one. */
  ghost predicate Ordered<T>(before: (T, T) -> bool, s: seq<T>) {
    forall i, j :: 0 <= i < j < |s| ==> before(s[i], s[j])
  }

  ghost predicate Distinct<T>(s: seq<T>) {
    forall i, j :: 0 <= i < j < |s| ==> s[i] != s[j]
  }

  function Insert<T>(before: (T, T) -> bool, x: T, s: seq<T>): seq<T> {
    if s == [] then [x] else if before(x, s[0]) then [x] + s else [s[0]] + Insert(before, x, s[1..])
  }

  function SortBy<T>(before: (T, T) -> bool, s: seq<T>): seq<T> {
    if s == [] then [] else Insert(before, s[0], SortBy(before, s[1..]))
  }

  lemma InsertContents<T>(before: (T, T) -> bool, x: T, s: seq<T>)
    ensures multiset(Insert(before, x, s)) == multiset{x} + multiset(s)
  {
    if s != [] {
      assert s == [s[0]] + s[1..];
      if !before(x, s[0]) {
        InsertContents(before, x, s[1..]);
      }
    }
  }

  lemma SortContents<T>(before: (T, T) -> bool, s: seq<T>)
    ensures multiset(SortBy(before, s)) == multiset(s)
  {
    if s != [] {
      SortContents(before, s[1..]);
      InsertContents(before, s[0], SortBy(before, s[1..]));
      assert s == [s[0]] + s[1..];
    }
  }

  lemma InsertOrdered<T(!new)>(before: (T, T) -> bool, x: T, s: seq<T>)
    requires StrictTotal(before) && Ordered(before, s) && x !in s
    ensures Ordered(before, Insert(before, x, s))
  {
    if s != [] {
      if before(x, s[0]) {
        FirstBeforeAll(before, x, s);
      } else {
        assert before(s[0], x) by { assert s[0] != x; }
        InsertOrdered(before, x, s[1..]);
        var rest := Insert(before, x, s[1..]);
        InsertContents(before, x, s[1..]);
        forall j | 0 <= j < |rest|
          ensures before(s[0], rest[j])
        {
          assert rest[j] in multiset(rest);
          assert rest[j] == x || rest[j] in s[1..];
        }
      }
    }
  }

  lemma FirstBeforeAll<T(!new)>(before: (T, T) -> bool, x: T, s: seq<T>)
    requires StrictTotal(before) && Ordered(before, s) && s != [] && before(x, s[0])
    ensures Ordered(before, [x] + s)
  {
    forall j | 0 <= j < |s|
      ensures before(x, s[j])
    {
      if j > 0 {
        assert before(s[0], s[j]);
      }
    }
  }

  /** Sorting distinct elements by a strict order gives them all, in order. */
  lemma SortIsOrdered<T(!new)>(before: (T, T) -> bool, s: seq<T>)
    requires StrictTotal(before) && Distinct(s)
    ensures Ordered(before, SortBy(before, s)) && multiset(SortBy(before, s)) == multiset(s)
  {
    SortContents(before, s);
    if s != [] {
      SortIsOrdered(before, s[1..]);
      assert s[0] !in s[1..];
      assert s[0] !in multiset(SortBy(before, s[1..]));
      InsertOrdered(before, s[0], SortBy(before, s[1..]));
    }
  }

  lemma FirstIsFirst<T(!new)>(before: (T, T) -> bool, s: seq<T>, x: T)
    requires Ordered(before, s) && x in multiset(s)
    ensures x == s[0] || before(s[0], x)
  {
    var i :| 0 <= i < |s| && s[i] == x;
  }

  lemma TailContents<T>(s: seq<T>)
    requires s != []
    ensures s == [s[0]] + s[1..] && multiset(s[1..]) == multiset(s) - multiset{s[0]}
  {
    assert s == [s[0]] + s[1..];
  }

  lemma FirstsAgree<T(!new)>(before: (T, T) -> bool, a: seq<T>, b: seq<T>)
    requires StrictTotal(before) && Ordered(before, a) && Ordered(before, b) && multiset(a) == multiset(b) && a != [] && b != []
    ensures a[0] == b[0]
  {
    assert a[0] in multiset(b) && b[0] in multiset(a);
    FirstIsFirst(before, a, b[0]);
    FirstIsFirst(before, b, a[0]);
  }

  /** The ordered arrangement of a collection is unique. */
  lemma OrderedIsUnique<T(!new)>(before: (T, T) -> bool, a: seq<T>, b: seq<T>)
    requires StrictTotal(before) && Ordered(before, a) && Ordered(before, b) && multiset(a) == multiset(b)
    ensures a == b
  {
    assert |a| == |multiset(a)| == |multiset(b)| == |b|;
    if a != [] {
      FirstsAgree(before, a, b);
      assert Ordered(before, a[1..]) && Ordered(before, b[1..]);
      hide StrictTotal, Ordered;
      TailContents(a);
      TailContents(b);
      OrderedIsUnique(before, a[1..], b[1..]);
    }
  }

  lemma DistinctCount<T>(s: seq<T>)
    requires Distinct(s)
    ensures forall x :: multiset(s)[x] == if x in s then 1 else 0
  {
    if s != [] {
      DistinctCount(s[1..]);
      assert s == [s[0]] + s[1..];
    }
  }

  /** Distinct members of a sequence are no more than it has elements. */
  lemma DistinctMembersFit<T>(a: seq<T>, b: seq<T>)
    requires Distinct(a) && forall x :: x in a ==> x in b
    ensures |a| <= |b|
  {
    DistinctCount(a);
    forall x
      ensures multiset(a)[x] <= multiset(b)[x]
    {
      assert x in a ==> x in multiset(b);
    }
    assert multiset(b) == multiset(a) + (multiset(b) - multiset(a));
    assert |multiset(a)| == |a| && |multiset(b)| == |b|;
  }

  lemma SameMembersSameMultiset<T>(r: seq<T>, r': seq<T>)
    requires Distinct(r) && Distinct(r')
    requires forall x :: x in r <==> x in r'
    ensures multiset(r) == multiset(r') && |r| == |r'|
  {
    DistinctCount(r);
    DistinctCount(r');
    assert forall x :: multiset(r)[x] == multiset(r')[x];
    assert |r| == |multiset(r)| && |r'| == |multiset(r')|;
  }

  /** In an ordered sequence, position order is the order. */
  function Elements<T(==)>(s: seq<T>): set<T> {
    set x | x in s
  }

  lemma {:induction false} DistinctElements<T>(s: seq<T>)
    requires Distinct(s)
    ensures |Elements(s)| == |s|
  {
    if s == [] {
      assert Elements(s) == {};
    } else {
      var n := |s| - 1;
      DistinctElements(s[..n]);
      assert Elements(s) == Elements(s[..n]) + {s[n]};
    }
  }

  /** The elements of s that come before x. */
  ghost function Predecessors<T(!new)>(before: (T, T) -> bool, s: seq<T>, x: T): set<T> {
    set y | y in s && before(y, x)
  }

  /** In an ordered sequence an element stands after as many elements as there are before it. */
  lemma {:induction false} PositionCounts<T(!new)>(before: (T, T) -> bool, s: seq<T>, m: nat)
    requires StrictTotal(before) && Ordered(before, s) && m < |s|
    ensures |Predecessors(before, s, s[m])| == m
  {
    forall y
      ensures y in Predecessors(before, s, s[m]) <==> y in Elements(s[..m])
    {
      if y in s && before(y, s[m]) {
        var i :| 0 <= i < |s| && s[i] == y;
        PositionsFollowOrder(before, s, i, m);
        assert s[..m][i] == y;
      }
      if y in s[..m] {
        var i :| 0 <= i < m && s[..m][i] == y;
        assert before(s[i], s[m]);
      }
    }
    assert Predecessors(before, s, s[m]) == Elements(s[..m]);
    forall i, j | 0 <= i < j < m
      ensures s[..m][i] != s[..m][j]
    {
      assert before(s[i], s[j]);
    }
    DistinctElements(s[..m]);
  }

  lemma PositionsFollowOrder<T(!new)>(before: (T, T) -> bool, s: seq<T>, i: nat, j: nat)
    requires StrictTotal(before) && Ordered(before, s) && i < |s| && j < |s| && before(s[i], s[j])
    ensures i < j
  {
  }
}

/** Reciprocal rank fusion over real numbers. */
module Fusion {
  import opened Common
  import opened Sorting

  // ---------- the order of the fused list ----------

  /** Python's < on strings: by code point, the shorter first. */
  predicate LexLess(a: string, b: string) {
    if b == [] then false
    else if a == [] then true
    else if a[0] != b[0] then a[0] < b[0]
    else LexLess(a[1..], b[1..])
  }

  lemma {:induction false} LexIrreflexive(a: string)
    ensures !LexLess(a, a)
  {
    if a != [] {
      LexIrreflexive(a[1..]);
    }
  }

  lemma {:induction false} LexTotal(a: string, b: string)
    requires a != b
    ensures LexLess(a, b) || LexLess(b, a)
  {
    if a != [] && b != [] && a[0] == b[0] {
      assert a == [a[0]] + a[1..] && b == [b[0]] + b[1..];
      LexTotal(a[1..], b[1..]);
    }
  }

  lemma {:induction false} LexTransitive(a: string, b: string, c: string)
    requires LexLess(a, b) && LexLess(b, c)
    ensures LexLess(a, c)
  {
    if a != [] && a[0] == b[0] == c[0] {
      LexTransitive(a[1..], b[1..], c[1..]);
    }
  }

  /** The order of strings: at the first difference the smaller character, or the end, comes first. */
  lemma {:induction false} LexLessExact(a: string, b: string)
    ensures LexLess(a, b) <==>
      exists i: nat :: i <= |a| && i < |b| && a[..i] == b[..i] && (i == |a| || a[i] < b[i])
  {
    if a == [] {
      assert b != [] ==> a[..0] == b[..0];
    } else if b != [] && a[0] == b[0] {
      LexLessExact(a[1..], b[1..]);
      if i: nat :| i <= |a[1..]| && i < |b[1..]| && a[1..][..i] == b[1..][..i] && (i == |a[1..]| || a[1..][i] < b[1..][i]) {
        assert a[..i + 1] == [a[0]] + a[1..][..i] && b[..i + 1] == [b[0]] + b[1..][..i];
        assert i + 1 <= |a| && i + 1 < |b| && a[..i + 1] == b[..i + 1] && (i + 1 == |a| || a[i + 1] < b[i + 1]);
      }
      if i: nat :| i <= |a| && i < |b| && a[..i] == b[..i] && (i == |a| || a[i] < b[i]) {
        assert i > 0;
        assert a[1..][..i - 1] == a[..i][1..] && b[1..][..i - 1] == b[..i][1..];
        assert i - 1 <= |a[1..]| && i - 1 < |b[1..]| && (i - 1 == |a[1..]| || a[1..][i - 1] < b[1..][i - 1]);
      }
    } else if b != [] {
      assert a[0] < b[0] ==> a[..0] == b[..0];
      forall i: nat | 0 < i <= |a| && i < |b|
        ensures a[..i] != b[..i]
      {
        assert a[..i][0] == a[0] && b[..i][0] == b[0];
      }
    }
  }

  /** An item with its fused score. */
  datatype Scored = Scored(id: string, score: real)

  /** The key (-score, id). */
  predicate Ahead(a: Scored, b: Scored) {
    a.score > b.score || (a.score == b.score && LexLess(a.id, b.id))
  }

  lemma AheadIsStrictTotal()
    ensures StrictTotal(Ahead)
  {
    forall x, y, z | Ahead(x, y) && Ahead(y, z)
      ensures Ahead(x, z)
    {
      if x.score == y.score == z.score {
        LexTransitive(x.id, y.id, z.id);
      }
    }
    forall x, y | x != y
      ensures Ahead(x, y) || Ahead(y, x)
    {
      if x.score == y.score {
        LexTotal(x.id, y.id);
      }
    }
    forall x
      ensures !Ahead(x, x)
    {
      LexIrreflexive(x.id);
    }
  }

  // ---------- scores ----------

  /** The weight of a rank; no run gets to use that of a rank at which k + rank is zero. */
  function Weight(k: int, rank: nat): real {
    if k + rank == 0 then 0.0 else 1.0 / (k + rank) as real
  }

  /** No list has a rank at which k + rank is zero. */
  predicate NoZeroRank(lists: seq<seq<string>>, k: int) {
    forall l :: 0 <= l < |lists| ==> k >= 0 || |lists[l]| < -k
  }

  /** What one ranked list contributes to an item: 1/(k + rank) for every rank it appears at. */
  function ScoreIn(ranked: seq<string>, k: int, id: string): real {
    if ranked == [] then 0.0
    else ScoreIn(ranked[..|ranked| - 1], k, id) + if ranked[|ranked| - 1] == id then Weight(k, |ranked|) else 0.0
  }

  function Score(lists: seq<seq<string>>, k: int, id: string): real {
    if lists == [] then 0.0 else Score(lists[..|lists| - 1], k, id) + ScoreIn(lists[|lists| - 1], k, id)
  }

  predicate Appears(lists: seq<seq<string>>, id: string) {
    exists i :: 0 <= i < |lists| && id in lists[i]
  }

  /** r is the fusion: every item once, with its score, in strict (-score, id) order. */
  ghost predicate IsFusion(r: seq<Scored>, lists: seq<seq<string>>, k: int) {
    && Ordered(Ahead, r)
    && (forall i, j :: 0 <= i < j < |r| ==> r[i].id != r[j].id)
    && (forall i :: 0 <= i < |r| ==> Appears(lists, r[i].id) && r[i].score == Score(lists, k, r[i].id))
    && (forall id :: Appears(lists, id) ==> exists i :: 0 <= i < |r| && r[i].id == id)
  }

  /** scores and its insertion order, after the given lists and the first part of the next. */
  ghost predicate Accumulated(scores: map<string, real>, order: seq<string>, lists: seq<seq<string>>, part: seq<string>, k: int) {
    && Distinct(order)
    && (forall id :: id in order <==> id in scores)
    && (forall id :: id in scores <==> Appears(lists, id) || id in part)
    && (forall id :: id in scores ==> scores[id] == Score(lists, k, id) + ScoreIn(part, k, id))
  }

  lemma {:induction false} AbsentScoresNothing(ranked: seq<string>, k: int, id: string)
    requires id !in ranked
    ensures ScoreIn(ranked, k, id) == 0.0
  {
    if ranked != [] {
      AbsentScoresNothing(ranked[..|ranked| - 1], k, id);
    }
  }

  lemma {:induction false} UnseenScoresNothing(lists: seq<seq<string>>, k: int, id: string)
    requires !Appears(lists, id)
    ensures Score(lists, k, id) == 0.0
  {
    if lists != [] {
      var n := |lists| - 1;
      assert id !in lists[n];
      AbsentScoresNothing(lists[n], k, id);
      forall i | 0 <= i < n
        ensures id !in lists[..n][i]
      {
        assert id !in lists[i];
      }
      UnseenScoresNothing(lists[..n], k, id);
    }
  }

  /** One more rank: only its item's score changes, by that rank's weight. */
  lemma ScoreAfterRank(ranked: seq<string>, j: nat, k: int, id: string)
    requires j < |ranked|
    ensures ScoreIn(ranked[..j + 1], k, id) == ScoreIn(ranked[..j], k, id) + if ranked[j] == id then Weight(k, j + 1) else 0.0
  {
    assert ranked[..j + 1][..j] == ranked[..j];
  }

  lemma AccumulateStep(scores: map<string, real>, order: seq<string>, lists: seq<seq<string>>, ranked: seq<string>, j: nat,
                       k: int, scores': map<string, real>, order': seq<string>)
    requires j < |ranked| && Accumulated(scores, order, lists, ranked[..j], k)
    requires var id := ranked[j];
      && order' == (if id in scores then order else order + [id])
      && scores' == scores[id := (if id in scores then scores[id] else 0.0) + Weight(k, j + 1)]
    ensures Accumulated(scores', order', lists, ranked[..j + 1], k)
  {
    hide Weight, Score, ScoreIn, Appears;
    var id := ranked[j];
    assert ranked[..j + 1] == ranked[..j] + [id];
    if id !in scores {
      UnseenScoresNothing(lists, k, id);
      AbsentScoresNothing(ranked[..j], k, id);
    }
    forall x | x in scores'
      ensures scores'[x] == Score(lists, k, x) + ScoreIn(ranked[..j + 1], k, x)
    {
      ScoreAfterRank(ranked, j, k, x);
    }
  }

  lemma AccumulateList(scores: map<string, real>, order: seq<string>, lists: seq<seq<string>>, n: nat, k: int)
    requires n < |lists| && Accumulated(scores, order, lists[..n], lists[n], k)
    ensures Accumulated(scores, order, lists[..n + 1], [], k)
  {
    var next := lists[..n + 1];
    assert next[..n] == lists[..n];
    forall id
      ensures Appears(next, id) <==> Appears(lists[..n], id) || id in lists[n]
    {
      if id in lists[n] {
        assert id in next[n];
      }
      if i :| 0 <= i < n && id in lists[..n][i] {
        assert id in next[i];
      }
      if i :| 0 <= i < |next| && id in next[i] {
        assert i < n ==> id in lists[..n][i];
      }
    }
  }

  /** Fuse ranked lists: one pass over all ranks into a dictionary, then sort its items. */
  method ReciprocalRankFusion(rankedLists: seq<seq<string>>, k: int) returns (r: Result<seq<Scored>>)
    ensures if NoZeroRank(rankedLists, k) then r.Ok? && IsFusion(r.value, rankedLists, k) else r == Err(ZeroDivisionError)
  {
    var scores: map<string, real> := map[];
    var order: seq<string> := [];
    for n := 0 to |rankedLists|
      invariant Accumulated(scores, order, rankedLists[..n], [], k)
      invariant forall l :: 0 <= l < n ==> k >= 0 || |rankedLists[l]| < -k
    {
      var ranked := rankedLists[n];
      for j := 0 to |ranked|
        invariant Accumulated(scores, order, rankedLists[..n], ranked[..j], k)
        invariant k >= 0 || j < -k
      {
        ghost var scores0, order0 := scores, order;
        var itemId := ranked[j];
        if itemId !in scores {
          order := order + [itemId];
          scores := scores[itemId := 0.0];
        }
        if k + (j + 1) == 0 { return Err(ZeroDivisionError); }
        scores := scores[itemId := scores[itemId] + Weight(k, j + 1)];
        AccumulateStep(scores0, order0, rankedLists[..n], ranked, j, k, scores, order);
      }
      assert ranked[..|ranked|] == ranked;
      AccumulateList(scores, order, rankedLists, n, k);
    }
    assert rankedLists[..|rankedLists|] == rankedLists;
    var items := seq(|order|, i requires 0 <= i < |order| && order[i] in scores => Scored(order[i], scores[order[i]]));
    SortedItemsAreFusion(items, order, scores, rankedLists, k);
    return Ok(SortBy(Ahead, items));
  }

  lemma {:induction false} SortedItemsAreFusion(items: seq<Scored>, order: seq<string>, scores: map<string, real>, lists: seq<seq<string>>, k: int)
    requires Accumulated(scores, order, lists, [], k) && |items| == |order|
    requires forall i :: 0 <= i < |order| ==> order[i] in scores && items[i] == Scored(order[i], scores[order[i]])
    ensures IsFusion(SortBy(Ahead, items), lists, k)
  {
    AheadIsStrictTotal();
    SortIsOrdered(Ahead, items);
    var r := SortBy(Ahead, items);
    forall i | 0 <= i < |r|
      ensures Appears(lists, r[i].id) && r[i].score == Score(lists, k, r[i].id)
    {
      assert r[i] in multiset(items);
    }
    forall i, j | 0 <= i < j < |r|
      ensures r[i].id != r[j].id
    {
      assert Ahead(r[i], r[j]);
      LexIrreflexive(r[i].id);
    }
    forall id | Appears(lists, id)
      ensures exists i :: 0 <= i < |r| && r[i].id == id
    {
      var c :| 0 <= c < |order| && order[c] == id;
      assert items[c] in multiset(r);
    }
  }

  // ---------- what a fusion means ----------

  /** An item that comes before another has the higher score, or the same score and the smaller id. */
  lemma FusionOrderExact(r: seq<Scored>, lists: seq<seq<string>>, k: int, i: nat, j: nat)
    requires IsFusion(r, lists, k) && i < |r| && j < |r|
    ensures i < j <==> r[i].score > r[j].score || (r[i].score == r[j].score && LexLess(r[i].id, r[j].id))
  {
    AheadIsStrictTotal();
    if Ahead(r[i], r[j]) {
      PositionsFollowOrder(Ahead, r, i, j);
    }
  }

  /** There is only one fusion of given lists. */
  lemma FusionIsUnique(r: seq<Scored>, r': seq<Scored>, lists: seq<seq<string>>, k: int)
    requires IsFusion(r, lists, k) && IsFusion(r', lists, k)
    ensures r == r'
  {
    AheadIsStrictTotal();
    SameMembers(r, r', lists, k);
    SameMembers(r', r, lists, k);
    SameMembersSameMultiset(r, r');
    OrderedIsUnique(Ahead, r, r');
  }

  lemma SameMembers(r: seq<Scored>, r': seq<Scored>, lists: seq<seq<string>>, k: int)
    requires IsFusion(r, lists, k) && IsFusion(r', lists, k)
    ensures forall x :: x in r ==> x in r'
  {
    forall x | x in r
      ensures x in r'
    {
      var i :| 0 <= i < |r| && r[i] == x;
      var j :| 0 <= j < |r'| && r'[j].id == x.id;
    }
  }

  /** The weight of a rank is the reciprocal of k + rank. */
  lemma WeightExact(k: int, rank: nat)
    requires k + rank != 0
    ensures Weight(k, rank) * (k + rank) as real == 1.0
  {
  }

  /** On either side of zero a later rank weighs less. */
  lemma WeightDecreases(k: int, a: nat, b: nat)
    requires 0 < a < b && (k >= 0 || b < -k)
    ensures Weight(k, b) < Weight(k, a)
  {
    var x, y := (k + a) as real, (k + b) as real;
    if k >= 0 {
      Reciprocals(x, y, 1.0 / x, 1.0 / y);
    } else {
      Reciprocals(-y, -x, -(1.0 / y), -(1.0 / x));
    }
  }

  lemma Reciprocals(x: real, y: real, p: real, q: real)
    requires 0.0 < x < y && p * x == 1.0 && q * y == 1.0
    ensures 0.0 < q < p
  {
  }

  /** In a list without repetition an item scores the weight of its rank. */
  lemma {:induction false} ScoreAtRank(ranked: seq<string>, k: int, i: nat)
    requires Distinct(ranked) && i < |ranked|
    ensures ScoreIn(ranked, k, ranked[i]) == Weight(k, i + 1)
  {
    var n := |ranked| - 1;
    if i == n {
      AbsentScoresNothing(ranked[..n], k, ranked[i]);
    } else {
      ScoreAtRank(ranked[..n], k, i);
    }
  }

  /** In two lists without repetition an item scores the sum of the weights of its two ranks. */
  lemma ScoreInTwoLists(first: seq<string>, second: seq<string>, k: int, id: string, i: nat, j: nat)
    requires Distinct(first) && i < |first| && first[i] == id
    requires Distinct(second) && j < |second| && second[j] == id
    ensures Score([first, second], k, id) == Weight(k, i + 1) + Weight(k, j + 1)
  {
    hide ScoreIn;
    ScoreAtRank(first, k, i);
    ScoreAtRank(second, k, j);
    assert [first, second][..1] == [first] && [first][..0] == [];
    assert Score([first], k, id) == Score([], k, id) + ScoreIn(first, k, id);
  }

  /** a stands before b in a list that holds both once. */
  ghost predicate RankedAhead(ranked: seq<string>, a: string, b: string) {
    Distinct(ranked) && exists i, j :: 0 <= i < j < |ranked| && ranked[i] == a && ranked[j] == b
  }

  lemma {:induction false} AheadEverywhereScoresMore(lists: seq<seq<string>>, k: int, a: string, b: string)
    requires NoZeroRank(lists, k) && forall l :: 0 <= l < |lists| ==> RankedAhead(lists[l], a, b)
    ensures Score(lists, k, a) >= Score(lists, k, b)
    ensures lists != [] ==> Score(lists, k, a) > Score(lists, k, b)
  {
    if lists != [] {
      var n := |lists| - 1;
      AheadEverywhereScoresMore(lists[..n], k, a, b);
      assert RankedAhead(lists[n], a, b);
      var i, j :| 0 <= i < j < |lists[n]| && lists[n][i] == a && lists[n][j] == b;
      ScoreAtRank(lists[n], k, i);
      ScoreAtRank(lists[n], k, j);
      WeightDecreases(k, i + 1, j + 1);
    }
  }

  /** Dominance: an item ahead of another in every input list is ahead of it in the fusion. */
  lemma FusionDominance(r: seq<Scored>, lists: seq<seq<string>>, k: int, i: nat, j: nat)
    requires IsFusion(r, lists, k) && NoZeroRank(lists, k) && i < |r| && j < |r| && lists != []
    requires forall l :: 0 <= l < |lists| ==> RankedAhead(lists[l], r[i].id, r[j].id)
    ensures i < j
  {
    AheadEverywhereScoresMore(lists, k, r[i].id, r[j].id);
    AheadIsStrictTotal();
    PositionsFollowOrder(Ahead, r, i, j);
  }

  // ---------- conservation of score ----------

  /** The weight a ranked list hands out. */
  function Mass(ranked: seq<string>, k: int): real {
    if ranked == [] then 0.0 else Mass(ranked[..|ranked| - 1], k) + Weight(k, |ranked|)
  }

  function TotalMass(lists: seq<seq<string>>, k: int): real {
    if lists == [] then 0.0 else TotalMass(lists[..|lists| - 1], k) + Mass(lists[|lists| - 1], k)
  }

  function SumOfScores(r: seq<Scored>): real {
    if r == [] then 0.0 else SumOfScores(r[..|r| - 1]) + r[|r| - 1].score
  }

  function SumIn(ids: seq<string>, ranked: seq<string>, k: int): real {
    if ids == [] then 0.0 else SumIn(ids[..|ids| - 1], ranked, k) + ScoreIn(ranked, k, ids[|ids| - 1])
  }

  function SumAll(ids: seq<string>, lists: seq<seq<string>>, k: int): real {
    if ids == [] then 0.0 else SumAll(ids[..|ids| - 1], lists, k) + Score(lists, k, ids[|ids| - 1])
  }

  /** One more rank adds its weight to exactly one of the items. */
  lemma {:induction false} SumInStep(ids: seq<string>, ranked: seq<string>, k: int)
    requires ranked != [] && Distinct(ids)
    ensures var n := |ranked| - 1;
      SumIn(ids, ranked, k) == SumIn(ids, ranked[..n], k) + if ranked[n] in ids then Weight(k, n + 1) else 0.0
  {
    if ids != [] {
      SumInStep(ids[..|ids| - 1], ranked, k);
      assert ids == ids[..|ids| - 1] + [ids[|ids| - 1]];
    }
  }

  lemma {:induction false} SumInEmpty(ids: seq<string>, k: int)
    ensures SumIn(ids, [], k) == 0.0
  {
    if ids != [] {
      SumInEmpty(ids[..|ids| - 1], k);
    }
  }

  lemma {:induction false} SumInIsMass(ids: seq<string>, ranked: seq<string>, k: int)
    requires Distinct(ids) && forall i :: 0 <= i < |ranked| ==> ranked[i] in ids
    ensures SumIn(ids, ranked, k) == Mass(ranked, k)
  {
    if ranked == [] {
      SumInEmpty(ids, k);
    } else {
      SumInStep(ids, ranked, k);
      SumInIsMass(ids, ranked[..|ranked| - 1], k);
    }
  }

  lemma {:induction false} SumAllStep(ids: seq<string>, lists: seq<seq<string>>, k: int)
    requires lists != []
    ensures SumAll(ids, lists, k) == SumAll(ids, lists[..|lists| - 1], k) + SumIn(ids, lists[|lists| - 1], k)
  {
    if ids != [] {
      SumAllStep(ids[..|ids| - 1], lists, k);
    }
  }

  lemma {:induction false} SumAllEmpty(ids: seq<string>, k: int)
    ensures SumAll(ids, [], k) == 0.0
  {
    if ids != [] {
      SumAllEmpty(ids[..|ids| - 1], k);
    }
  }

  lemma {:induction false} SumAllIsMass(ids: seq<string>, lists: seq<seq<string>>, k: int)
    requires Distinct(ids) && forall l, i :: 0 <= l < |lists| && 0 <= i < |lists[l]| ==> lists[l][i] in ids
    ensures SumAll(ids, lists, k) == TotalMass(lists, k)
  {
    if lists == [] {
      SumAllEmpty(ids, k);
    } else {
      var n := |lists| - 1;
      SumAllStep(ids, lists, k);
      forall l, i | 0 <= l < n && 0 <= i < |lists[..n][l]|
        ensures lists[..n][l][i] in ids
      {
        assert lists[..n][l][i] == lists[l][i];
      }
      SumAllIsMass(ids, lists[..n], k);
      SumInIsMass(ids, lists[n], k);
    }
  }

  function Ids(r: seq<Scored>): (ids: seq<string>)
    ensures |ids| == |r|
  {
    seq(|r|, i requires 0 <= i < |r| => r[i].id)
  }

  lemma {:induction false} SumOfScoresIsSumAll(r: seq<Scored>, lists: seq<seq<string>>, k: int)
    requires forall i :: 0 <= i < |r| ==> r[i].score == Score(lists, k, r[i].id)
    ensures SumOfScores(r) == SumAll(Ids(r), lists, k)
  {
    if r != [] {
      SumOfScoresIsSumAll(r[..|r| - 1], lists, k);
      assert Ids(r)[..|r| - 1] == Ids(r[..|r| - 1]);
    }
  }

  /** Conservation: the scores of a fusion sum to 1/(k + rank) over all lists and ranks, repeated items or not. */
  lemma ScoreIsConserved(r: seq<Scored>, lists: seq<seq<string>>, k: int)
    requires IsFusion(r, lists, k)
    ensures SumOfScores(r) == TotalMass(lists, k)
  {
    SumOfScoresIsSumAll(r, lists, k);
    forall l, i | 0 <= l < |lists| && 0 <= i < |lists[l]|
      ensures lists[l][i] in Ids(r)
    {
      assert Appears(lists, lists[l][i]) by { assert lists[l][i] in lists[l]; }
      var j :| 0 <= j < |r| && r[j].id == lists[l][i];
      assert Ids(r)[j] == lists[l][i];
    }
    SumAllIsMass(Ids(r), lists, k);
  }
}
