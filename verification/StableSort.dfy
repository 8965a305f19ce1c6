/** A stable sort by descending priority, and why the order it gives is unique. */
module StableSort {

  function Insert<T>(x: T, ys: seq<T>, priority: T -> int): (r: seq<T>)
    ensures |r| == |ys| + 1 && multiset(r) == multiset{x} + multiset(ys)
  {
    if ys == [] then [x]
    else if priority(ys[0]) <= priority(x) then
      [x] + ys
    else
      assert ys == [ys[0]] + ys[1..];
      [ys[0]] + Insert(x, ys[1..], priority)
  }

  function Sort<T>(xs: seq<T>, priority: T -> int): (r: seq<T>)
    ensures |r| == |xs| && multiset(r) == multiset(xs)
  {
    if xs == [] then []
    else
      assert xs == [xs[0]] + xs[1..];
      Insert(xs[0], Sort(xs[1..], priority), priority)
  }

  /** The order a stable descending sort aims at, when `place` is the position in the input. */
  ghost predicate Before<T>(a: T, b: T, priority: T -> int, place: T -> int) {
    priority(b) < priority(a) || (priority(a) == priority(b) && place(a) < place(b))
  }

  ghost predicate Ordered<T>(xs: seq<T>, priority: T -> int, place: T -> int) {
    forall i, j :: 0 <= i < j < |xs| ==> Before(xs[i], xs[j], priority, place)
  }

  lemma {:induction false} InsertOrders<T>(x: T, ys: seq<T>, priority: T -> int, place: T -> int)
    requires Ordered(ys, priority, place) && forall i :: 0 <= i < |ys| ==> place(x) < place(ys[i])
    ensures Ordered(Insert(x, ys, priority), priority, place)
  {
    if ys != [] && priority(x) < priority(ys[0]) {
      InsertOrders(x, ys[1..], priority, place);
      var rest := Insert(x, ys[1..], priority);
      forall j | 0 <= j < |rest| ensures Before(ys[0], rest[j], priority, place) {
        assert rest[j] in multiset(rest);
        if rest[j] != x {
          assert rest[j] in ys[1..];
          var i :| 0 <= i < |ys[1..]| && ys[1..][i] == rest[j];
          assert Before(ys[0], ys[i + 1], priority, place);
        }
      }
    }
  }

  /** Elements come out by descending priority, and equal priorities keep their input order. */
  lemma {:induction false} SortOrders<T>(xs: seq<T>, priority: T -> int, place: T -> int)
    requires forall i, j :: 0 <= i < j < |xs| ==> place(xs[i]) < place(xs[j])
    ensures Ordered(Sort(xs, priority), priority, place)
  {
    if xs != [] {
      var rest := Sort(xs[1..], priority);
      SortOrders(xs[1..], priority, place);
      forall i | 0 <= i < |rest| ensures place(xs[0]) < place(rest[i]) {
        assert rest[i] in multiset(rest);
        assert rest[i] in xs[1..];
        var j :| 0 <= j < |xs[1..]| && xs[1..][j] == rest[i];
        assert xs[j + 1] == rest[i];
      }
      InsertOrders(xs[0], rest, priority, place);
    }
  }

  lemma {:induction false} SortKeeps<T>(xs: seq<T>, priority: T -> int, x: T)
    ensures x in Sort(xs, priority) <==> x in xs
  {
    assert x in Sort(xs, priority) <==> x in multiset(Sort(xs, priority));
    assert x in xs <==> x in multiset(xs);
  }

  // ----- uniqueness

  ghost predicate StrictOrder<T(!new)>(less: (T, T) -> bool) {
    && (forall a :: !less(a, a))
    && (forall a, b :: less(a, b) ==> !less(b, a))
  }

  ghost predicate Ascending<T>(xs: seq<T>, less: (T, T) -> bool) {
    forall i, j :: 0 <= i < j < |xs| ==> less(xs[i], xs[j])
  }

  /** Two ascending sequences with the same elements are the same sequence. */
  lemma {:induction false} AscendingIsUnique<T(!new)>(xs: seq<T>, ys: seq<T>, less: (T, T) -> bool)
    requires StrictOrder(less) && Ascending(xs, less) && Ascending(ys, less)
    requires forall x :: x in xs <==> x in ys
    ensures xs == ys
  {
    if xs == [] {
      FirstIsLeast(ys, less, 0);
    } else {
      assert xs[0] in ys;
      var i :| 0 <= i < |ys| && ys[i] == xs[0];
      assert ys[0] in xs;
      var j :| 0 <= j < |xs| && xs[j] == ys[0];
      FirstIsLeast(ys, less, i);
      FirstIsLeast(xs, less, j);
      forall x ensures x in xs[1..] <==> x in ys[1..] {
        TailMembers(xs, less, x);
        TailMembers(ys, less, x);
      }
      AscendingIsUnique(xs[1..], ys[1..], less);
      assert xs == [xs[0]] + xs[1..] && ys == [ys[0]] + ys[1..];
    }
  }

  lemma {:induction false} FirstIsLeast<T(!new)>(xs: seq<T>, less: (T, T) -> bool, i: nat)
    requires Ascending(xs, less)
    ensures xs != [] ==> xs[0] in xs
    ensures 0 < i < |xs| ==> less(xs[0], xs[i])
  {}

  lemma {:induction false} TailMembers<T(!new)>(xs: seq<T>, less: (T, T) -> bool, x: T)
    requires StrictOrder(less) && Ascending(xs, less) && xs != []
    ensures x in xs[1..] <==> x in xs && x != xs[0]
  {
    assert xs == [xs[0]] + xs[1..];
    if x in xs[1..] {
      var k :| 0 <= k < |xs[1..]| && xs[1..][k] == x;
      assert less(xs[0], xs[k + 1]);
    }
  }
}
