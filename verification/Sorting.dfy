/** A stable sort by a comparison, standing for `sort.Slice` and `sort.SliceStable`. */
module Sorting {

  /** What a comparison must satisfy for "sorted" to mean anything. */
  ghost predicate StrictWeakOrder<T(!new)>(lt: (T, T) -> bool) {
    && (forall a, b :: lt(a, b) ==> !lt(b, a))
    && (forall a, b, c :: !lt(b, a) && !lt(c, b) ==> !lt(c, a))
  }

  ghost predicate SortedBy<T>(xs: seq<T>, lt: (T, T) -> bool) {
    forall i, j :: 0 <= i < j < |xs| ==> !lt(xs[j], xs[i])
  }

  function Insert<T>(x: T, xs: seq<T>, lt: (T, T) -> bool): seq<T> {
    if xs == [] then [x]
    else if lt(xs[0], x) then [xs[0]] + Insert(x, xs[1..], lt)
    else [x] + xs
  }

  function Sort<T>(xs: seq<T>, lt: (T, T) -> bool): seq<T> {
    if xs == [] then [] else Insert(xs[0], Sort(xs[1..], lt), lt)
  }

  lemma {:induction false} InsertPermutes<T>(x: T, xs: seq<T>, lt: (T, T) -> bool)
    ensures multiset(Insert(x, xs, lt)) == multiset{x} + multiset(xs)
  {
    if xs != [] && lt(xs[0], x) {
      InsertPermutes(x, xs[1..], lt);
      assert xs == [xs[0]] + xs[1..];
    }
  }

  lemma {:induction false} SortPermutes<T>(xs: seq<T>, lt: (T, T) -> bool)
    ensures multiset(Sort(xs, lt)) == multiset(xs) && |Sort(xs, lt)| == |xs|
  {
    if xs != [] {
      SortPermutes(xs[1..], lt);
      InsertPermutes(xs[0], Sort(xs[1..], lt), lt);
      assert xs == [xs[0]] + xs[1..];
      assert |multiset(Sort(xs, lt))| == |multiset(xs)|;
    }
  }

  lemma {:induction false} SameMembers<T>(xs: seq<T>, ys: seq<T>, x: T)
    requires multiset(xs) == multiset(ys)
    ensures x in xs <==> x in ys
  {
    assert x in xs <==> x in multiset(xs);
    assert x in ys <==> x in multiset(ys);
  }

  ghost predicate NoRepeats<T>(xs: seq<T>) {
    forall i, j :: 0 <= i < j < |xs| ==> xs[i] != xs[j]
  }

  lemma {:induction false} NoRepeatsConcat<T>(xs: seq<T>, ys: seq<T>)
    requires NoRepeats(xs) && NoRepeats(ys) && forall x <- xs :: x !in ys
    ensures NoRepeats(xs + ys)
  {
    forall i, j | 0 <= i < j < |xs + ys| ensures (xs + ys)[i] != (xs + ys)[j] {
      if i < |xs| <= j {
        assert xs[i] in xs && ys[j - |xs|] in ys;
      }
    }
  }

  lemma {:induction false} CountOnce<T>(xs: seq<T>, x: T)
    requires NoRepeats(xs)
    ensures multiset(xs)[x] <= 1
  {
    if xs != [] {
      assert xs == [xs[0]] + xs[1..];
      CountOnce(xs[1..], x);
      assert xs[0] !in xs[1..];
    }
  }

  lemma {:induction false} CountTwice<T>(xs: seq<T>, i: nat, j: nat)
    requires i < j < |xs| && xs[i] == xs[j]
    ensures multiset(xs)[xs[i]] >= 2
  {
    assert xs == xs[..j] + xs[j..];
    assert xs[..j][i] == xs[i] && xs[j..][0] == xs[i];
    assert multiset(xs) == multiset(xs[..j]) + multiset(xs[j..]);
    assert xs[i] in multiset(xs[..j]) && xs[i] in multiset(xs[j..]);
  }

  lemma {:induction false} PermutedNoRepeats<T>(xs: seq<T>, ys: seq<T>)
    requires multiset(xs) == multiset(ys) && NoRepeats(xs)
    ensures NoRepeats(ys)
  {
    forall i, j | 0 <= i < j < |ys| ensures ys[i] != ys[j] {
      CountOnce(xs, ys[i]);
      if ys[i] == ys[j] {
        CountTwice(ys, i, j);
      }
    }
  }

  lemma {:induction false} InsertSorted<T(!new)>(x: T, xs: seq<T>, lt: (T, T) -> bool)
    requires StrictWeakOrder(lt) && SortedBy(xs, lt)
    ensures SortedBy(Insert(x, xs, lt), lt)
  {
    var r := Insert(x, xs, lt);
    if xs == [] {
    } else if lt(xs[0], x) {
      var tail := Insert(x, xs[1..], lt);
      InsertSorted(x, xs[1..], lt);
      InsertPermutes(x, xs[1..], lt);
      forall j | 0 <= j < |tail| ensures !lt(tail[j], xs[0]) {
        assert tail[j] in multiset(tail);
        assert tail[j] == x || tail[j] in xs[1..];
      }
      assert r == [xs[0]] + tail;
    } else {
      forall j | 0 <= j < |xs| ensures !lt(xs[j], x) {
        assert j == 0 || !lt(xs[j], xs[0]);
      }
    }
  }

  lemma {:induction false} SortSorted<T(!new)>(xs: seq<T>, lt: (T, T) -> bool)
    requires StrictWeakOrder(lt)
    ensures SortedBy(Sort(xs, lt), lt)
  {
    if xs != [] {
      SortSorted(xs[1..], lt);
      InsertSorted(xs[0], Sort(xs[1..], lt), lt);
    }
  }
}
