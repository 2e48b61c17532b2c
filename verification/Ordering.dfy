/** Sorting, and the lexicographic order Python gives strings and tuples. */
module Ordering {
  /** Total and transitive, as sorting needs. */
  ghost predicate Preorder<T(!new)>(le: (T, T) -> bool) {
    && (forall x, y :: le(x, y) || le(y, x))
    && (forall x, y, z :: le(x, y) && le(y, z) ==> le(x, z))
  }

  ghost predicate Order<T(!new)>(le: (T, T) -> bool) {
    Preorder(le) && forall x, y :: le(x, y) && le(y, x) ==> x == y
  }

  ghost predicate Sorted<T>(s: seq<T>, le: (T, T) -> bool) {
    forall i, j | 0 <= i < j < |s| :: le(s[i], s[j])
  }

  ghost predicate Unrepeated<T>(s: seq<T>) { forall i, j | 0 <= i < j < |s| :: s[i] != s[j] }

  /** Sorted without duplicates. */
  ghost predicate Ascending<T>(s: seq<T>, le: (T, T) -> bool) { Sorted(s, le) && Unrepeated(s) }

  function Insert<T>(x: T, s: seq<T>, le: (T, T) -> bool): seq<T> {
    if s == [] || le(x, s[0]) then [x] + s else [s[0]] + Insert(x, s[1..], le)
  }

  /** `sorted(s)`; equal elements keep their order. */
  function Sort<T>(s: seq<T>, le: (T, T) -> bool): seq<T> {
    if s == [] then [] else Insert(s[0], Sort(s[1..], le), le)
  }

  /** The elements of `s`, each once (the last occurrence of each). */
  function Distinct<T(==)>(s: seq<T>): seq<T> {
    if s == [] then [] else
      var rest := Distinct(s[1..]);
      if s[0] in rest then rest else [s[0]] + rest
  }

  lemma {:induction false} InsertContents<T>(x: T, s: seq<T>, le: (T, T) -> bool)
    ensures multiset(Insert(x, s, le)) == multiset{x} + multiset(s)
  {
    if s != [] && !le(x, s[0]) {
      InsertContents(x, s[1..], le);
      assert s == [s[0]] + s[1..];
    }
  }

  lemma {:induction false} SortContents<T>(s: seq<T>, le: (T, T) -> bool)
    ensures multiset(Sort(s, le)) == multiset(s)
  {
    if s != [] {
      SortContents(s[1..], le);
      InsertContents(s[0], Sort(s[1..], le), le);
      assert s == [s[0]] + s[1..];
    }
  }

  lemma SameContents<T>(s: seq<T>, t: seq<T>)
    requires multiset(s) == multiset(t)
    ensures |s| == |t| && forall x :: x in s <==> x in t
  {
    assert |multiset(s)| == |s| && |multiset(t)| == |t|;
    forall x ensures x in s <==> x in t {
      assert x in s <==> x in multiset(s);
      assert x in t <==> x in multiset(t);
    }
  }

  lemma {:induction false} InsertSorted<T(!new)>(x: T, s: seq<T>, le: (T, T) -> bool)
    requires Preorder(le) && Sorted(s, le)
    ensures Sorted(Insert(x, s, le), le)
  {
    if s == [] {
    } else if le(x, s[0]) {
      assert forall i | 0 < i < |s| :: le(s[0], s[i]);
    } else {
      var tail := Insert(x, s[1..], le);
      InsertSorted(x, s[1..], le);
      InsertContents(x, s[1..], le);
      forall i | 0 <= i < |tail| ensures le(s[0], tail[i]) {
        assert tail[i] in multiset(tail);
        assert tail[i] == x || tail[i] in s[1..];
      }
    }
  }

  lemma {:induction false} SortSorts<T(!new)>(s: seq<T>, le: (T, T) -> bool)
    requires Preorder(le)
    ensures Sorted(Sort(s, le), le)
  {
    if s != [] {
      SortSorts(s[1..], le);
      InsertSorted(s[0], Sort(s[1..], le), le);
    }
  }

  lemma {:induction false} DistinctIs<T>(s: seq<T>)
    ensures forall x :: x in Distinct(s) <==> x in s
    ensures forall i, j | 0 <= i < j < |Distinct(s)| :: Distinct(s)[i] != Distinct(s)[j]
  {
    if s != [] {
      DistinctIs(s[1..]);
      assert s == [s[0]] + s[1..];
    }
  }

  /** Sorting texts without duplicates gives an ascending list with the same elements. */
  lemma SortDistinct<T(!new)>(s: seq<T>, le: (T, T) -> bool)
    requires Order(le)
    ensures Ascending(Sort(Distinct(s), le), le)
    ensures forall x :: x in Sort(Distinct(s), le) <==> x in s
  {
    var d := Distinct(s);
    DistinctIs(s);
    SortContents(d, le);
    SortSorts(d, le);
    SameContents(Sort(d, le), d);
    NoRepeats(d, Sort(d, le));
  }

  lemma CountAtMostOne<T>(d: seq<T>, x: T)
    requires forall i, j | 0 <= i < j < |d| :: d[i] != d[j]
    ensures multiset(d)[x] <= 1
  {
    if d != [] {
      var n := |d| - 1;
      assert d == d[..n] + [d[n]];
      CountAtMostOne(d[..n], x);
      if x == d[n] { assert x !in d[..n]; assert x !in multiset(d[..n]); }
    }
  }

  lemma NoRepeats<T>(d: seq<T>, r: seq<T>)
    requires forall i, j | 0 <= i < j < |d| :: d[i] != d[j]
    requires multiset(r) == multiset(d)
    ensures forall i, j | 0 <= i < j < |r| :: r[i] != r[j]
  {
    forall i, j | 0 <= i < j < |r| ensures r[i] != r[j] {
      CountAtMostOne(d, r[i]);
      if r[i] == r[j] { TwoOccurrences(r, i, j); }
    }
  }

  lemma TwoOccurrences<T>(r: seq<T>, i: nat, j: nat)
    requires i < j < |r| && r[i] == r[j]
    ensures multiset(r)[r[i]] >= 2
  {
    assert r == r[..j] + [r[j]] + r[j + 1..];
    assert r[i] in multiset(r[..j]) by { assert r[..j][i] == r[i]; }
  }

  lemma HeadTail<T>(s: seq<T>)
    requires s != []
    ensures multiset(s[1..]) == multiset(s) - multiset{s[0]}
  {
    assert s == [s[0]] + s[1..];
  }

  lemma SameHead<T(!new)>(s: seq<T>, t: seq<T>, le: (T, T) -> bool)
    requires Order(le) && Sorted(s, le) && Sorted(t, le) && multiset(s) == multiset(t) && s != []
    ensures |t| == |s| && s[0] == t[0]
  {
    SameContents(s, t);
    assert s[0] in t && t[0] in s;
    assert le(s[0], t[0]) && le(t[0], s[0]);
  }

  /** Two sorted lists with the same contents are the same list. */
  lemma {:induction false} SortedUnique<T(!new)>(s: seq<T>, t: seq<T>, le: (T, T) -> bool)
    requires Order(le) && Sorted(s, le) && Sorted(t, le) && multiset(s) == multiset(t)
    ensures s == t
  {
    if s == [] {
      SameContents(s, t);
    } else {
      SameHead(s, t, le);
      HeadTail(s);
      HeadTail(t);
      SortedUnique(s[1..], t[1..], le);
      assert s == [s[0]] + s[1..] && t == [t[0]] + t[1..];
    }
  }

  // ------------------------------------------------------------------ lexicographic order

  predicate Lex<T(==)>(a: seq<T>, b: seq<T>, le: (T, T) -> bool) {
    if a == [] then true
    else if b == [] then false
    else if a[0] == b[0] then Lex(a[1..], b[1..], le)
    else le(a[0], b[0])
  }

  lemma {:induction false} LexTotal<T(!new)>(a: seq<T>, b: seq<T>, le: (T, T) -> bool)
    requires Order(le)
    ensures Lex(a, b, le) || Lex(b, a, le)
    ensures Lex(a, b, le) && Lex(b, a, le) ==> a == b
  {
    if a != [] && b != [] && a[0] == b[0] {
      LexTotal(a[1..], b[1..], le);
      assert a == [a[0]] + a[1..] && b == [b[0]] + b[1..];
    }
  }

  lemma {:induction false} LexTransitive<T(!new)>(a: seq<T>, b: seq<T>, c: seq<T>, le: (T, T) -> bool)
    requires Order(le) && Lex(a, b, le) && Lex(b, c, le)
    ensures Lex(a, c, le)
  {
    if a != [] && b != [] && c != [] && a[0] == b[0] == c[0] {
      LexTransitive(a[1..], b[1..], c[1..], le);
    }
  }

  predicate CharLe(a: char, b: char) { a <= b }

  predicate StringLe(a: string, b: string) { Lex(a, b, CharLe) }

  predicate TupleLe(a: seq<string>, b: seq<string>) { Lex(a, b, StringLe) }

  /** At position `i` the texts first differ, and `a` has the smaller character. */
  predicate SmallerAt(a: string, b: string, i: int) { 0 <= i < |a| && i < |b| && a[..i] == b[..i] && a[i] < b[i] }

  lemma SmallerNext(a: string, b: string, i: int)
    requires a != [] && b != [] && a[0] == b[0]
    ensures SmallerAt(a[1..], b[1..], i) <==> SmallerAt(a, b, i + 1) && i >= 0
  {
    if 0 <= i < |a| - 1 && i < |b| - 1 {
      assert a[..i + 1] == [a[0]] + a[1..][..i] && b[..i + 1] == [b[0]] + b[1..][..i];
      if a[..i + 1] == b[..i + 1] { assert a[1..][..i] == a[..i + 1][1..] && b[1..][..i] == b[..i + 1][1..]; }
    }
  }

  lemma PrefixNext(a: string, b: string)
    requires a != [] && b != [] && a[0] == b[0]
    ensures a <= b <==> a[1..] <= b[1..]
  {
    assert a == [a[0]] + a[1..] && b == [b[0]] + b[1..];
  }

  lemma HeadsAgree(a: string, b: string)
    requires a != [] && b != []
    ensures forall i | SmallerAt(a, b, i) && i > 0 :: a[0] == b[0]
  {
    forall i | SmallerAt(a, b, i) && i > 0 ensures a[0] == b[0] {
      assert a[..i][0] == a[0] && b[..i][0] == b[0];
    }
  }

  /** A text comes before another when it is its beginning, or has the smaller character where they first differ. */
  lemma {:induction false} StringLeIs(a: string, b: string)
    ensures StringLe(a, b) <==> a <= b || exists i :: SmallerAt(a, b, i)
  {
    if a != [] && b != [] {
      HeadsAgree(a, b);
      if a[0] == b[0] {
        StringLeIs(a[1..], b[1..]);
        PrefixNext(a, b);
        if i :| SmallerAt(a[1..], b[1..], i) { SmallerNext(a, b, i); }
        if i :| SmallerAt(a, b, i) { SmallerNext(a, b, i - 1); }
      } else {
        assert a[..0] == b[..0];
        assert StringLe(a, b) ==> SmallerAt(a, b, 0);
        assert forall i | SmallerAt(a, b, i) :: i == 0;
      }
    }
  }

  /** Tuples are compared by their first components, then by the rest. */
  lemma TupleLeIs(a: seq<string>, b: seq<string>)
    requires a != [] && b != []
    ensures TupleLe(a, b) <==> if a[0] == b[0] then TupleLe(a[1..], b[1..]) else StringLe(a[0], b[0])
  {
  }

  lemma StringOrder()
    ensures Order(StringLe)
  {
    assert Order(CharLe);
    forall a, b ensures StringLe(a, b) || StringLe(b, a) { LexTotal(a, b, CharLe); }
    forall a, b | StringLe(a, b) && StringLe(b, a) ensures a == b { LexTotal(a, b, CharLe); }
    forall a, b, c | StringLe(a, b) && StringLe(b, c) ensures StringLe(a, c) { LexTransitive(a, b, c, CharLe); }
  }

  lemma TupleOrder()
    ensures Order(TupleLe)
  {
    StringOrder();
    forall a, b ensures TupleLe(a, b) || TupleLe(b, a) { LexTotal(a, b, StringLe); }
    forall a, b | TupleLe(a, b) && TupleLe(b, a) ensures a == b { LexTotal(a, b, StringLe); }
    forall a, b, c | TupleLe(a, b) && TupleLe(b, c) ensures TupleLe(a, c) { LexTransitive(a, b, c, StringLe); }
  }
}
