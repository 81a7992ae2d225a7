/** Total orders and sorting.  Go's `sort.Strings` and `sort.Slice` return some sorted permutation of
    their input; `SortedUnique` is why, for a total order, it does not matter which. */
module Ordering {
  ghost predicate TotalOrder<T(!new)>(leq: (T, T) -> bool) {
    && (forall x, y :: leq(x, y) || leq(y, x))
    && (forall x, y :: leq(x, y) && leq(y, x) ==> x == y)
    && (forall x, y, z :: leq(x, y) && leq(y, z) ==> leq(x, z))
  }

  ghost predicate Sorted<T>(s: seq<T>, leq: (T, T) -> bool) {
    forall i, j :: 0 <= i < j < |s| ==> leq(s[i], s[j])
  }

  function Insert<T(!new)>(x: T, s: seq<T>, leq: (T, T) -> bool): (r: seq<T>)
    requires TotalOrder(leq) && Sorted(s, leq)
    ensures Sorted(r, leq) && multiset(r) == multiset(s) + multiset{x}
  {
    if s == [] then [x]
    else if leq(x, s[0]) then
      assert forall i :: 0 <= i < |s| ==> leq(x, s[i]);
      [x] + s
    else
      var rest := Insert(x, s[1..], leq);
      assert s == [s[0]] + s[1..];
      ConsSorted(s[0], s[1..], x, rest, leq);
      [s[0]] + rest
  }

  lemma ConsSorted<T(!new)>(head: T, tail: seq<T>, x: T, rest: seq<T>, leq: (T, T) -> bool)
    requires Sorted([head] + tail, leq) && leq(head, x)
    requires Sorted(rest, leq) && multiset(rest) == multiset(tail) + multiset{x}
    ensures Sorted([head] + rest, leq)
  {
    forall i | 0 <= i < |rest| ensures leq(head, rest[i]) {
      assert rest[i] in multiset(rest);
      assert ([head] + tail)[0] == head;
      if rest[i] != x {
        assert rest[i] in multiset(tail);
        var j :| 0 <= j < |tail| && tail[j] == rest[i];
        assert ([head] + tail)[j + 1] == tail[j];
      }
    }
  }

  function Sort<T(!new)>(s: seq<T>, leq: (T, T) -> bool): (r: seq<T>)
    requires TotalOrder(leq)
    ensures Sorted(r, leq) && multiset(r) == multiset(s)
  {
    if s == [] then [] else
      assert s == [s[0]] + s[1..];
      Insert(s[0], Sort(s[1..], leq), leq)
  }

  lemma HeadIsLeast<T(!new)>(s: seq<T>, x: T, leq: (T, T) -> bool)
    requires TotalOrder(leq) && Sorted(s, leq) && x in multiset(s)
    ensures leq(s[0], x)
  {
    var i :| 0 <= i < |s| && s[i] == x;
  }

  lemma Uncons<T>(s: seq<T>)
    requires s != []
    ensures s == [s[0]] + s[1..] && multiset(s[1..]) == multiset(s) - multiset{s[0]}
  {
    assert s == [s[0]] + s[1..];
  }

  lemma {:induction false} SortedUnique<T(!new)>(a: seq<T>, b: seq<T>, leq: (T, T) -> bool)
    requires TotalOrder(leq) && Sorted(a, leq) && Sorted(b, leq)
    requires multiset(a) == multiset(b)
    ensures a == b
  {
    assert |multiset(a)| == |a| && |multiset(b)| == |b|;
    if a != [] {
      assert a[0] == b[0] by {
        assert a[0] in multiset(b) && b[0] in multiset(a);
        HeadIsLeast(a, b[0], leq);
        HeadIsLeast(b, a[0], leq);
      }
      Uncons(a);
      Uncons(b);
      SortedUnique(a[1..], b[1..], leq);
    }
  }

  /** Bytewise string order.  UTF-8 keeps the order of code points, so comparing characters compares bytes. */
  predicate StringLeq(a: string, b: string) {
    a == [] || (b != [] && (a[0] < b[0] || (a[0] == b[0] && StringLeq(a[1..], b[1..]))))
  }

  /** A prefix comes first; otherwise the first character that differs decides. */
  lemma {:induction false} StringLeqMeans(a: string, b: string)
    ensures StringLeq(a, b) <==> a <= b || exists k :: 0 <= k < |a| && k < |b| && a[..k] == b[..k] && a[k] < b[k]
  {
    if a != [] && b != [] {
      StringLeqMeans(a[1..], b[1..]);
      if a[0] == b[0] {
        if k :| 0 <= k < |a| && k < |b| && a[..k] == b[..k] && a[k] < b[k] {
          assert k > 0;
          assert a[1..][..k - 1] == a[..k][1..] && b[1..][..k - 1] == b[..k][1..] && a[1..][k - 1] < b[1..][k - 1];
        }
        if k :| 0 <= k < |a[1..]| && k < |b[1..]| && a[1..][..k] == b[1..][..k] && a[1..][k] < b[1..][k] {
          assert a[..k + 1] == [a[0]] + a[1..][..k] && b[..k + 1] == [b[0]] + b[1..][..k];
          assert a[k + 1] < b[k + 1];
        }
      } else {
        assert a[0] < b[0] ==> a[..0] == b[..0];
        assert forall k :: 0 < k < |a| && k < |b| ==> a[..k][0] != b[..k][0];
      }
    }
  }

  lemma {:induction false} StringLeqTotal(a: string, b: string)
    ensures StringLeq(a, b) || StringLeq(b, a)
    ensures StringLeq(a, b) && StringLeq(b, a) ==> a == b
  {
    if a != [] && b != [] && a[0] == b[0] {
      StringLeqTotal(a[1..], b[1..]);
      assert a == [a[0]] + a[1..] && b == [b[0]] + b[1..];
    }
  }

  lemma {:induction false} StringLeqTransitive(a: string, b: string, c: string)
    requires StringLeq(a, b) && StringLeq(b, c)
    ensures StringLeq(a, c)
  {
    if a != [] && a[0] == b[0] == c[0] {
      StringLeqTransitive(a[1..], b[1..], c[1..]);
    }
  }

  lemma StringOrder()
    ensures TotalOrder(StringLeq)
  {
    forall a, b ensures StringLeq(a, b) || StringLeq(b, a) { StringLeqTotal(a, b); }
    forall a, b | StringLeq(a, b) && StringLeq(b, a) ensures a == b { StringLeqTotal(a, b); }
    forall a, b, c | StringLeq(a, b) && StringLeq(b, c) ensures StringLeq(a, c) { StringLeqTransitive(a, b, c); }
  }

  function SortStrings(s: seq<string>): (r: seq<string>)
    ensures Sorted(r, StringLeq) && multiset(r) == multiset(s)
  {
    StringOrder();
    Sort(s, StringLeq)
  }

  /** The elements of a set in string order. */
  ghost function SortedElements(names: set<string>): (r: seq<string>)
    ensures Sorted(r, StringLeq) && multiset(r) == multiset(names)
  {
    StringOrder();
    if names == {} then [] else
      var x :| x in names;
      assert multiset(names) == multiset(names - {x}) + multiset{x};
      Insert(x, SortedElements(names - {x}), StringLeq)
  }

  lemma SortedElementsMembers(names: set<string>)
    ensures forall x :: x in SortedElements(names) <==> x in names
    ensures |SortedElements(names)| == |names|
  {
    var r := SortedElements(names);
    assert |multiset(r)| == |r| && |multiset(names)| == |names|;
    forall x ensures x in r <==> x in names {
      assert x in multiset(r) <==> x in multiset(names);
    }
  }

  /** Gathers map keys in whatever order they come and sorts them. */
  method SortKeys(names: set<string>) returns (r: seq<string>)
    ensures r == SortedElements(names)
  {
    r := [];
    var todo := names;
    while todo != {}
      invariant multiset(r) + multiset(todo) == multiset(names)
      decreases |todo|
    {
      var x :| x in todo;
      assert multiset(todo) == multiset(todo - {x}) + multiset{x};
      r := r + [x];
      todo := todo - {x};
    }
    r := SortStrings(r);
    StringOrder();
    SortedUnique(r, SortedElements(names), StringLeq);
  }

  // ---------- what a set is told as ----------

  /** The images of the elements of a set, each as often as there are elements that have it. */
  ghost function Image<P(!new), D>(items: set<P>, f: P -> D): multiset<D> {
    if items == {} then multiset{} else
      var x :| x in items;
      Image(items - {x}, f) + multiset{f(x)}
  }

  lemma {:induction false} ImagePick<P(!new), D>(items: set<P>, f: P -> D, x: P)
    requires x in items
    ensures Image(items, f) == Image(items - {x}, f) + multiset{f(x)}
  {
    var y :| y in items && Image(items, f) == Image(items - {y}, f) + multiset{f(y)};
    if y != x {
      ImagePick(items - {y}, f, x);
      ImagePick(items - {x}, f, y);
      assert items - {y} - {x} == items - {x} - {y};
    }
  }

  lemma Without<P>(a: set<P>, b: set<P>, x: P)
    requires x in a && a !! b
    ensures a + b - {x} == a - {x} + b && x in a + b && a - {x} !! b
  {
  }

  lemma {:induction false} ImageUnion<P(!new), D>(a: set<P>, b: set<P>, f: P -> D)
    requires a !! b
    ensures Image(a + b, f) == Image(a, f) + Image(b, f)
    decreases a
  {
    if a == {} {
      assert a + b == b;
    } else {
      var x :| x in a;
      Without(a, b, x);
      hide Image;
      ImagePick(a, f, x);
      ImagePick(a + b, f, x);
      ImageUnion(a - {x}, b, f);
    }
  }

  ghost function Preimage<P(!new), D>(items: set<P>, f: P -> D, d: D): set<P> {
    set x | x in items && f(x) == d
  }

  lemma {:induction false} ImageCount<P(!new), D>(items: set<P>, f: P -> D, d: D)
    ensures Image(items, f)[d] == |Preimage(items, f, d)|
  {
    if items == {} {
      assert Preimage(items, f, d) == {};
    } else {
      var y :| y in items;
      ImagePick(items, f, y);
      ImageCount(items - {y}, f, d);
      assert Preimage(items, f, d) == Preimage(items - {y}, f, d) + if f(y) == d then {y} else {};
    }
  }

  lemma ImageFinds<P(!new), D>(items: set<P>, f: P -> D, d: D)
    ensures d in Image(items, f) <==> exists x :: x in items && f(x) == d
  {
    ImageCount(items, f, d);
    var those := Preimage(items, f, d);
    if x :| x in items && f(x) == d {
      assert x in those;
    }
    if |those| > 0 {
      var x :| x in those;
    }
  }
}
