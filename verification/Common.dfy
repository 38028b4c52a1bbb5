/** Small datatypes and sequence facts shared by the component models. */
module Common {

  datatype Option<+T> = None | Some(value: T)

  /** No value occurs twice. */
  ghost predicate Distinct<T>(s: seq<T>) {
    forall i, j :: 0 <= i < j < |s| ==> s[i] != s[j]
  }

  function Last<T>(s: seq<T>): T
    requires s != []
  {
    s[|s| - 1]
  }

  /** Everything but the last element: the run before its most recent step. */
  function Front<T>(s: seq<T>): seq<T>
    requires s != []
  {
    s[..|s| - 1]
  }

  lemma {:induction false} Snoc<T>(s: seq<T>)
    requires s != []
    ensures s == Front(s) + [Last(s)]
  {
  }

  lemma {:induction false} MultisetSnoc<T>(s: seq<T>, x: T)
    ensures multiset(s + [x]) == multiset(s) + multiset{x}
  {
  }

  lemma {:induction false} MultisetCons<T>(s: seq<T>)
    requires s != []
    ensures multiset(s) == multiset{s[0]} + multiset(s[1..])
  {
    assert s == [s[0]] + s[1..];
  }

  /** s with every occurrence of x removed, the rest in order. */
  function Without<T(==)>(s: seq<T>, x: T): (r: seq<T>)
    ensures forall y :: y in r ==> y in s && y != x
    ensures forall y :: y in s && y != x ==> y in r
    ensures |r| <= |s|
    ensures x !in s ==> r == s
  {
    if s == [] then [] else
      assert s == [s[0]] + s[1..];
      (if s[0] == x then [] else [s[0]]) + Without(s[1..], x)
  }

  lemma {:induction false} WithoutMultiset<T>(s: seq<T>, x: T)
    ensures multiset(Without(s, x)) == multiset(s)[x := 0]
  {
    if s != [] {
      var rest := Without(s[1..], x);
      WithoutMultiset(s[1..], x);
      MultisetCons(s);
      if s[0] == x {
        assert Without(s, x) == rest;
      } else {
        MultisetCons([s[0]] + rest);
        assert ([s[0]] + rest)[1..] == rest;
      }
    }
  }

  lemma {:induction false} WithoutCons<T>(x: T, y: T, s: seq<T>)
    ensures Without([y] + s, x) == (if y == x then [] else [y]) + Without(s, x)
  {
    assert ([y] + s)[1..] == s;
  }

  lemma {:induction false} ConcatAssoc<T>(a: seq<T>, b: seq<T>, c: seq<T>)
    ensures (a + b) + c == a + (b + c)
  {
  }

  lemma {:induction false} WithoutConcat<T>(a: seq<T>, b: seq<T>, x: T)
    ensures Without(a + b, x) == Without(a, x) + Without(b, x)
  {
    if a == [] {
      assert a + b == b;
    } else {
      var y, rest := a[0], a[1..];
      WithoutConcat(rest, b, x);
      assert a == [y] + rest;
      ConcatAssoc([y], rest, b);
      WithoutCons(x, y, rest + b);
      WithoutCons(x, y, rest);
      ConcatAssoc(if y == x then [] else [y], Without(rest, x), Without(b, x));
    }
  }

  lemma {:induction false} WithoutDistinct<T>(s: seq<T>, x: T)
    requires Distinct(s)
    ensures Distinct(Without(s, x))
  {
    if s != [] {
      WithoutDistinct(s[1..], x);
      assert s[0] !in Without(s[1..], x);
    }
  }

  /** Without on a duplicate-free sequence splices out the one position. */
  lemma {:induction false} WithoutAt<T>(s: seq<T>, k: nat)
    requires Distinct(s) && k < |s|
    ensures Without(s, s[k]) == s[..k] + s[k + 1..]
  {
    var x, before, after := s[k], s[..k], s[k + 1..];
    assert s == before + ([x] + after) && x !in before && x !in after;
    WithoutConcat(before, [x] + after, x);
    WithoutCons(x, x, after);
    assert [] + after == after;
  }

  /** s with position k taken out. */
  function Splice<T>(s: seq<T>, k: nat): seq<T>
    requires k < |s|
  {
    s[..k] + s[k + 1..]
  }

  lemma {:induction false} InSplice<T>(s: seq<T>, k: nat)
    requires k < |s|
    ensures forall x :: x in Splice(s, k) ==> x in s
    ensures forall x :: x in s ==> x == s[k] || x in Splice(s, k)
  {
    assert s == s[..k] + [s[k]] + s[k + 1..];
  }

  lemma {:induction false} DistinctFromMultiset<T>(s: seq<T>)
    requires forall x :: x in s ==> multiset(s)[x] <= 1
    ensures Distinct(s)
  {
    forall i, j | 0 <= i < j < |s|
      ensures s[i] != s[j]
    {
      assert s == s[..j] + [s[j]] + s[j + 1..];
      assert multiset(s) == multiset(s[..j]) + multiset{s[j]} + multiset(s[j + 1..]);
      assert s[..j][i] in multiset(s[..j]);
      assert s[j] in s;
    }
  }

  lemma {:induction false} EmptyOrMember(s: set<int>)
    ensures s == {} || exists x :: x in s
  {
    if forall x :: x !in s {
      assert s == {};
    }
  }

  lemma {:induction false} DistinctConcat<T>(a: seq<T>, b: seq<T>)
    requires Distinct(a + b)
    ensures Distinct(a) && Distinct(b)
    ensures forall x :: x in b ==> x !in a
  {
    var c := a + b;
    assert forall i :: 0 <= i < |a| ==> c[i] == a[i];
    assert forall j :: 0 <= j < |b| ==> c[|a| + j] == b[j];
  }

  lemma {:induction false} FrontLast<T>(s: seq<T>, x: T)
    ensures Front(s + [x]) == s && Last(s + [x]) == x
  {
  }

  // ---------------------------------------------------------------------------
  // Sorting by an integer key
  // ---------------------------------------------------------------------------

  function InsertBy<T>(sorted: seq<T>, x: T, key: T -> int): seq<T> {
    if sorted == [] || key(Last(sorted)) <= key(x) then sorted + [x]
    else InsertBy(Front(sorted), x, key) + [Last(sorted)]
  }

  function SortBy<T>(s: seq<T>, key: T -> int): seq<T> {
    if s == [] then [] else InsertBy(SortBy(Front(s), key), Last(s), key)
  }

  ghost predicate AscendingBy<T>(s: seq<T>, key: T -> int) {
    forall i, j :: 0 <= i < j < |s| ==> key(s[i]) <= key(s[j])
  }

  lemma {:induction false} InsertByKeeps<T>(sorted: seq<T>, x: T, key: T -> int)
    ensures multiset(InsertBy(sorted, x, key)) == multiset(sorted) + multiset{x}
  {
    if sorted != [] && key(Last(sorted)) > key(x) {
      var front, last := Front(sorted), Last(sorted);
      InsertByKeeps(front, x, key);
      MultisetSnoc(InsertBy(front, x, key), last);
      MultisetSnoc(front, last);
      Snoc(sorted);
    } else {
      MultisetSnoc(sorted, x);
    }
  }

  lemma {:induction false} InsertByMembers<T>(sorted: seq<T>, x: T, key: T -> int, y: T)
    requires y in InsertBy(sorted, x, key)
    ensures y == x || y in sorted
  {
    InsertByKeeps(sorted, x, key);
    assert y in multiset(InsertBy(sorted, x, key));
  }

  lemma {:induction false} AscendingSnoc<T>(s: seq<T>, x: T, key: T -> int)
    requires AscendingBy(s, key) && forall y :: y in s ==> key(y) <= key(x)
    ensures AscendingBy(s + [x], key)
  {
  }

  lemma {:induction false} AscendingFront<T>(s: seq<T>, key: T -> int)
    requires s != [] && AscendingBy(s, key)
    ensures AscendingBy(Front(s), key)
    ensures forall y :: y in s ==> key(y) <= key(Last(s))
  {
  }

  lemma {:induction false} InsertBySorts<T>(sorted: seq<T>, x: T, key: T -> int)
    requires AscendingBy(sorted, key)
    ensures AscendingBy(InsertBy(sorted, x, key), key)
  {
    if sorted != [] {
      var front, last := Front(sorted), Last(sorted);
      AscendingFront(sorted, key);
      if key(last) <= key(x) {
        AscendingSnoc(sorted, x, key);
      } else {
        InsertBySorts(front, x, key);
        var rest := InsertBy(front, x, key);
        forall y | y in rest
          ensures key(y) <= key(last)
        {
          InsertByMembers(front, x, key, y);
        }
        AscendingSnoc(rest, last, key);
      }
    }
  }

  /** SortBy sorts: ascending by key, and a permutation of its input. */
  lemma {:induction false} SortBySorts<T>(s: seq<T>, key: T -> int)
    ensures AscendingBy(SortBy(s, key), key) && multiset(SortBy(s, key)) == multiset(s)
  {
    if s != [] {
      SortBySorts(Front(s), key);
      InsertBySorts(SortBy(Front(s), key), Last(s), key);
      InsertByKeeps(SortBy(Front(s), key), Last(s), key);
      MultisetSnoc(Front(s), Last(s));
      Snoc(s);
    }
  }
}
