/** Stable sorting by a total preorder, as `sort_by` promises it, and when the result is the
    only possible one. */
module Sorting {

  type Order<!T> = (T, T) -> bool

  ghost predicate TotalPreorder<T(!new)>(le: Order<T>) {
    && (forall x, y :: le(x, y) || le(y, x))
    && (forall x, y, z :: le(x, y) && le(y, z) ==> le(x, z))
  }

  ghost predicate Ordered<T>(s: seq<T>, le: Order<T>) {
    forall i, j :: 0 <= i < j < |s| ==> le(s[i], s[j])
  }

  function Insert<T>(x: T, s: seq<T>, le: Order<T>): seq<T> {
    if s == [] || le(x, s[0]) then [x] + s else [s[0]] + Insert(x, s[1..], le)
  }

  function Sort<T>(s: seq<T>, le: Order<T>): seq<T> {
    if s == [] then [] else Insert(s[0], Sort(s[1..], le), le)
  }

  /** The elements of `s` equivalent to `e`, in order. */
  function Class<T>(s: seq<T>, e: T, le: Order<T>): seq<T> {
    if s == [] then []
    else (if le(s[0], e) && le(e, s[0]) then [s[0]] else []) + Class(s[1..], e, le)
  }

  lemma {:induction false} InsertContents<T>(x: T, s: seq<T>, le: Order<T>)
    ensures multiset(Insert(x, s, le)) == multiset(s) + multiset{x}
  {
    if s != [] && !le(x, s[0]) {
      InsertContents(x, s[1..], le);
      assert s == [s[0]] + s[1..];
    }
  }

  lemma {:induction false} InsertOrdered<T(!new)>(x: T, s: seq<T>, le: Order<T>)
    requires TotalPreorder(le) && Ordered(s, le)
    ensures Ordered(Insert(x, s, le), le)
  {
    if s != [] && !le(x, s[0]) {
      var t := Insert(x, s[1..], le);
      InsertOrdered(x, s[1..], le);
      InsertContents(x, s[1..], le);
      forall j | 0 <= j < |t| ensures le(s[0], t[j]) {
        assert t[j] in multiset(t);
        assert t[j] == x || t[j] in s[1..];
      }
    }
  }

  lemma {:induction false} InsertClass<T(!new)>(x: T, s: seq<T>, le: Order<T>, e: T)
    requires TotalPreorder(le) && Ordered(s, le)
    ensures Class(Insert(x, s, le), e, le) == Class([x] + s, e, le)
  {
    if s != [] && !le(x, s[0]) {
      InsertClass(x, s[1..], le, e);
      var t := Insert(x, s[1..], le);
      assert ([s[0]] + t)[1..] == t;
      assert ([x] + s)[1..] == s && ([x] + s[1..])[1..] == s[1..];
    }
  }

  /** Sorting orders, keeps the contents and keeps equivalent elements in input order. */
  lemma {:induction false} SortIsStable<T(!new)>(s: seq<T>, le: Order<T>)
    requires TotalPreorder(le)
    ensures Ordered(Sort(s, le), le)
    ensures multiset(Sort(s, le)) == multiset(s)
    ensures forall e :: Class(Sort(s, le), e, le) == Class(s, e, le)
  {
    if s != [] {
      var t := Sort(s[1..], le);
      SortIsStable(s[1..], le);
      InsertContents(s[0], t, le);
      InsertOrdered(s[0], t, le);
      assert s == [s[0]] + s[1..];
      forall e ensures Class(Sort(s, le), e, le) == Class(s, e, le) {
        InsertClass(s[0], t, le, e);
        assert ([s[0]] + t)[1..] == t;
      }
    }
  }

  lemma {:induction false} ClassMembers<T>(s: seq<T>, e: T, le: Order<T>)
    ensures forall x :: x in Class(s, e, le) <==> x in s && le(x, e) && le(e, x)
  {
    if s != [] {
      ClassMembers(s[1..], e, le);
      assert s == [s[0]] + s[1..];
    }
  }

  /** Order and stability leave one possibility. */
  lemma {:induction false} StableSortUnique<T(!new)>(a: seq<T>, b: seq<T>, le: Order<T>)
    requires TotalPreorder(le) && Ordered(a, le) && Ordered(b, le)
    requires forall e :: Class(a, e, le) == Class(b, e, le)
    ensures a == b
  {
    if a != [] {
      ClassMembers(a, a[0], le);
      ClassMembers(b, a[0], le);
      assert a[0] in Class(a, a[0], le);
      assert a[0] in b;
      ClassMembers(a, b[0], le);
      ClassMembers(b, b[0], le);
      assert b[0] in Class(b, b[0], le);
      assert b[0] in a;
      assert Class(a, a[0], le)[0] == a[0] && Class(b, a[0], le)[0] == b[0];
      forall e ensures Class(a[1..], e, le) == Class(b[1..], e, le) {
        assert Class(a, e, le) == Class(b, e, le);
        var h := if le(a[0], e) && le(e, a[0]) then [a[0]] else [];
        assert Class(a, e, le) == h + Class(a[1..], e, le) && Class(b, e, le) == h + Class(b[1..], e, le);
        assert Class(a[1..], e, le) == Class(a, e, le)[|h|..];
        assert Class(b[1..], e, le) == Class(b, e, le)[|h|..];
      }
      StableSortUnique(a[1..], b[1..], le);
      assert a == [a[0]] + a[1..] && b == [b[0]] + b[1..];
    }
  }

  lemma SameLength<T>(a: seq<T>, b: seq<T>)
    requires multiset(a) == multiset(b)
    ensures |a| == |b|
  {
    assert |a| == |multiset(a)| && |b| == |multiset(b)|;
  }

  lemma TailsPermute<T>(a: seq<T>, b: seq<T>)
    requires multiset(a) == multiset(b) && a != [] && b != [] && a[0] == b[0]
    ensures multiset(a[1..]) == multiset(b[1..])
  {
    assert a == [a[0]] + a[1..] && b == [b[0]] + b[1..];
    assert multiset(a[1..]) == multiset(a) - multiset{a[0]};
    assert multiset(b[1..]) == multiset(b) - multiset{b[0]};
  }

  lemma HeadsAgree<T(!new)>(a: seq<T>, b: seq<T>, le: Order<T>)
    requires TotalPreorder(le) && Ordered(a, le) && Ordered(b, le) && a != [] && b != []
    requires multiset(a) == multiset(b)
    requires forall x, y :: x in a && y in a && le(x, y) && le(y, x) ==> x == y
    ensures a[0] == b[0]
  {
    assert a[0] in multiset(b) && b[0] in multiset(a);
  }

  /** Where the order also separates the elements, contents alone decide: the result does
      not depend on the input order or on the sorting algorithm. */
  lemma {:induction false} SortedPermutationUnique<T(!new)>(a: seq<T>, b: seq<T>, le: Order<T>)
    requires TotalPreorder(le) && Ordered(a, le) && Ordered(b, le)
    requires multiset(a) == multiset(b)
    requires forall x, y :: x in a && y in a && le(x, y) && le(y, x) ==> x == y
    ensures a == b
  {
    SameLength(a, b);
    if a != [] {
      HeadsAgree(a, b, le);
      TailsPermute(a, b);
      assert forall x :: x in a[1..] ==> x in a;
      SortedPermutationUnique(a[1..], b[1..], le);
      assert a == [a[0]] + a[1..] && b == [b[0]] + b[1..];
    }
  }
}
