/** Sorting by a key order, as the source's calls of `sorted` do, and the string order of the keys. */
module Sorting {
  import opened Common

  ghost predicate TotalPreorder<T(!new)>(le: (T, T) -> bool) {
    && (forall x, y :: le(x, y) || le(y, x))
    && (forall x, y, z :: le(x, y) && le(y, z) ==> le(x, z))
  }

  ghost predicate SortedBy<T>(le: (T, T) -> bool, xs: seq<T>) {
    forall i, j :: 0 <= i < j < |xs| ==> le(xs[i], xs[j])
  }

  /** Put x before the first element that is not below it. */
  function Insert<T>(le: (T, T) -> bool, x: T, xs: seq<T>): seq<T> {
    if xs == [] || le(x, xs[0]) then [x] + xs else [xs[0]] + Insert(le, x, xs[1..])
  }

  /** A stable sort. */
  function Sort<T>(le: (T, T) -> bool, xs: seq<T>): seq<T> {
    if xs == [] then [] else Insert(le, xs[0], Sort(le, xs[1..]))
  }

  lemma {:induction false} InsertElements<T>(le: (T, T) -> bool, x: T, xs: seq<T>)
    ensures multiset(Insert(le, x, xs)) == multiset(xs) + multiset{x}
  {
    if xs != [] && !le(x, xs[0]) {
      InsertElements(le, x, xs[1..]);
      assert xs == [xs[0]] + xs[1..];
    }
  }

  lemma {:induction false} InsertSorted<T(!new)>(le: (T, T) -> bool, x: T, xs: seq<T>)
    requires TotalPreorder(le) && SortedBy(le, xs)
    ensures SortedBy(le, Insert(le, x, xs))
  {
    if xs != [] && !le(x, xs[0]) {
      var rest := Insert(le, x, xs[1..]);
      InsertSorted(le, x, xs[1..]);
      InsertElements(le, x, xs[1..]);
      forall y | y in rest ensures le(xs[0], y) {
        assert y in multiset(rest);
        assert y == x || y in xs[1..];
      }
    }
  }

  lemma {:induction false} SortElements<T>(le: (T, T) -> bool, xs: seq<T>)
    ensures multiset(Sort(le, xs)) == multiset(xs)
  {
    if xs != [] {
      SortElements(le, xs[1..]);
      InsertElements(le, xs[0], Sort(le, xs[1..]));
      assert xs == [xs[0]] + xs[1..];
    }
  }

  lemma {:induction false} SortSorted<T(!new)>(le: (T, T) -> bool, xs: seq<T>)
    requires TotalPreorder(le)
    ensures SortedBy(le, Sort(le, xs))
  {
    if xs != [] {
      SortSorted(le, xs[1..]);
      InsertSorted(le, xs[0], Sort(le, xs[1..]));
    }
  }

  /** Elements with equal keys are equal. */
  ghost predicate KeysIdentify<T>(le: (T, T) -> bool, xs: seq<T>) {
    forall x, y :: x in xs && y in xs && le(x, y) && le(y, x) ==> x == y
  }

  lemma TailElements<T>(xs: seq<T>)
    requires xs != []
    ensures multiset(xs[1..]) == multiset(xs) - multiset{xs[0]}
  {
    assert xs == [xs[0]] + xs[1..];
  }

  lemma {:induction false} SortedUnique<T(!new)>(le: (T, T) -> bool, xs: seq<T>, ys: seq<T>)
    requires TotalPreorder(le) && SortedBy(le, xs) && SortedBy(le, ys)
    requires multiset(xs) == multiset(ys) && KeysIdentify(le, xs)
    ensures xs == ys
    decreases |xs|
  {
    if xs == [] {
      assert |multiset(ys)| == 0;
    } else {
      assert |multiset(ys)| == |multiset(xs)| > 0;
      HeadsAgree(le, xs, ys);
      TailElements(xs);
      TailElements(ys);
      assert KeysIdentify(le, xs[1..]) && SortedBy(le, xs[1..]) && SortedBy(le, ys[1..]);
      hide TotalPreorder, KeysIdentify, SortedBy;
      SortedUnique(le, xs[1..], ys[1..]);
      assert xs == [xs[0]] + xs[1..] && ys == [ys[0]] + ys[1..];
    }
  }

  lemma HeadsAgree<T(!new)>(le: (T, T) -> bool, xs: seq<T>, ys: seq<T>)
    requires TotalPreorder(le) && SortedBy(le, xs) && SortedBy(le, ys)
    requires multiset(xs) == multiset(ys) && KeysIdentify(le, xs) && xs != [] && ys != []
    ensures xs[0] == ys[0]
  {
    assert ys[0] in multiset(ys) && xs[0] in multiset(xs);
    assert ys[0] in xs && xs[0] in ys;
    var i :| 0 <= i < |xs| && xs[i] == ys[0];
    var j :| 0 <= j < |ys| && ys[j] == xs[0];
    assert le(xs[0], ys[0]) by { if i == 0 { assert le(xs[0], xs[0]); } }
    assert le(ys[0], xs[0]) by { if j == 0 { assert le(ys[0], ys[0]); } }
  }

  /** Sorting forgets the order of its input when equal keys mean equal elements. */
  lemma SortCanonical<T(!new)>(le: (T, T) -> bool, xs: seq<T>, ys: seq<T>)
    requires TotalPreorder(le) && multiset(xs) == multiset(ys) && KeysIdentify(le, xs)
    ensures Sort(le, xs) == Sort(le, ys)
  {
    SortElements(le, xs);
    SortElements(le, ys);
    SortSorted(le, xs);
    SortSorted(le, ys);
    forall x | x in Sort(le, xs) ensures x in xs { assert x in multiset(Sort(le, xs)); }
    SortedUnique(le, Sort(le, xs), Sort(le, ys));
  }

  // Strings and lists of strings in Python's order.

  predicate StringLe(a: string, b: string) {
    a == [] || (b != [] && (a[0] < b[0] || (a[0] == b[0] && StringLe(a[1..], b[1..]))))
  }

  lemma {:induction false} StringTotal(a: string, b: string)
    ensures StringLe(a, b) || StringLe(b, a)
    ensures StringLe(a, b) && StringLe(b, a) ==> a == b
  {
    if a != [] && b != [] {
      StringTotal(a[1..], b[1..]);
      assert a == [a[0]] + a[1..] && b == [b[0]] + b[1..];
    }
  }

  lemma {:induction false} StringTransitive(a: string, b: string, c: string)
    requires StringLe(a, b) && StringLe(b, c)
    ensures StringLe(a, c)
  {
    if a != [] && b[0] == a[0] && c[0] == b[0] { StringTransitive(a[1..], b[1..], c[1..]); }
  }

  /** The first place where two sequences differ. */
  predicate DiffersAt<T(==)>(a: seq<T>, b: seq<T>, i: int) {
    0 <= i < |a| && i < |b| && a[..i] == b[..i] && a[i] != b[i]
  }

  lemma DiffersCons<T>(a: seq<T>, b: seq<T>, i: int)
    requires a != [] && b != [] && a[0] == b[0]
    ensures DiffersAt(a, b, i + 1) <==> DiffersAt(a[1..], b[1..], i)
    ensures !DiffersAt(a, b, 0)
  {
    if 0 <= i < |a| - 1 && i < |b| - 1 {
      assert a[..i + 1] == [a[0]] + a[1..][..i] && b[..i + 1] == [b[0]] + b[1..][..i];
      assert a[..i + 1][1..] == a[1..][..i] && b[..i + 1][1..] == b[1..][..i];
    }
  }

  lemma PrefixCons<T>(a: seq<T>, b: seq<T>)
    requires a != [] && b != [] && a[0] == b[0]
    ensures a <= b <==> a[1..] <= b[1..]
  {
    assert a == [a[0]] + a[1..] && b == [b[0]] + b[1..];
  }

  lemma HeadsDiffer<T>(a: seq<T>, b: seq<T>)
    requires a != [] && b != [] && a[0] != b[0]
    ensures !(a <= b) && forall i :: DiffersAt(a, b, i) <==> i == 0
  {
    forall i ensures DiffersAt(a, b, i) <==> i == 0 {
      if 0 < i <= |a| && i <= |b| { assert a[..i][0] != b[..i][0]; }
      if i == 0 { assert a[..0] == b[..0]; }
    }
  }

  /** A string comes first if it is a prefix of the other, or smaller at the first place where they differ. */
  lemma {:induction false} StringLeMeaning(a: string, b: string)
    ensures StringLe(a, b) <==> a <= b || exists i :: DiffersAt(a, b, i) && a[i] < b[i]
  {
    if a != [] && b != [] {
      if a[0] == b[0] {
        StringLeMeaning(a[1..], b[1..]);
        PrefixCons(a, b);
        forall i ensures DiffersAt(a, b, i) <==> DiffersAt(a[1..], b[1..], i - 1) {
          DiffersCons(a, b, i - 1);
        }
        if i :| DiffersAt(a[1..], b[1..], i) && a[1..][i] < b[1..][i] { assert DiffersAt(a, b, i + 1); }
      } else {
        HeadsDiffer(a, b);
        hide DiffersAt;
      }
    }
  }

  predicate ListLe(a: seq<string>, b: seq<string>) {
    a == [] || (b != [] && if a[0] == b[0] then ListLe(a[1..], b[1..]) else StringLe(a[0], b[0]))
  }

  lemma {:induction false} ListTotal(a: seq<string>, b: seq<string>)
    ensures ListLe(a, b) || ListLe(b, a)
    ensures ListLe(a, b) && ListLe(b, a) ==> a == b
  {
    if a != [] && b != [] {
      StringTotal(a[0], b[0]);
      ListTotal(a[1..], b[1..]);
      assert a == [a[0]] + a[1..] && b == [b[0]] + b[1..];
    }
  }

  lemma {:induction false} ListTransitive(a: seq<string>, b: seq<string>, c: seq<string>)
    requires ListLe(a, b) && ListLe(b, c)
    ensures ListLe(a, c)
  {
    if a != [] {
      if a[0] == b[0] && b[0] == c[0] {
        ListTransitive(a[1..], b[1..], c[1..]);
      } else {
        StringTotal(a[0], b[0]);
        StringTotal(b[0], c[0]);
        if a[0] != b[0] && b[0] != c[0] { StringTransitive(a[0], b[0], c[0]); }
      }
    }
  }

  /** The same for lists, by the first string that differs. */
  lemma {:induction false} ListLeMeaning(a: seq<string>, b: seq<string>)
    ensures ListLe(a, b) <==> a <= b || exists i :: DiffersAt(a, b, i) && StringLe(a[i], b[i])
  {
    hide StringLe;
    if a != [] && b != [] {
      if a[0] == b[0] {
        ListLeMeaning(a[1..], b[1..]);
        PrefixCons(a, b);
        forall i ensures DiffersAt(a, b, i) <==> DiffersAt(a[1..], b[1..], i - 1) {
          DiffersCons(a, b, i - 1);
        }
        if i :| DiffersAt(a[1..], b[1..], i) && StringLe(a[1..][i], b[1..][i]) { assert DiffersAt(a, b, i + 1); }
      } else {
        HeadsDiffer(a, b);
        hide DiffersAt;
      }
    }
  }
}
