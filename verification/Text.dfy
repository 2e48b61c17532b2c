/** Sequences of characters (or bytes): the handful of library operations the client leans on. */
module Text {
  /** `s.lstrip(c)`: drop every leading occurrence of one element. */
  function LStrip<T(==)>(s: seq<T>, c: T): (r: seq<T>)
    ensures r == [] || r[0] != c
  {
    if s == [] || s[0] != c then s else LStrip(s[1..], c)
  }

  lemma {:induction false} LStripSuffix<T>(s: seq<T>, c: T) returns (k: nat)
    ensures k <= |s| && LStrip(s, c) == s[k..]
    ensures forall i | 0 <= i < k :: s[i] == c
  {
    if s == [] || s[0] != c {
      k := 0;
    } else {
      k := LStripSuffix(s[1..], c);
      k := k + 1;
    }
  }

  /** `s.find(c)`, with the length standing for "absent". */
  function IndexOf<T(==)>(s: seq<T>, c: T): (i: nat)
    ensures i <= |s| && c !in s[..i]
    ensures i < |s| ==> s[i] == c
    ensures c in s <==> i < |s|
  {
    if s == [] || s[0] == c then 0
    else
      var i := 1 + IndexOf(s[1..], c);
      assert s[..i] == [s[0]] + s[1..][..i - 1];
      i
  }

  /** `sep.join(parts)` for a one-element separator. */
  function Join<T>(parts: seq<seq<T>>, sep: T): seq<T>
  {
    if |parts| == 0 then [] else
    if |parts| == 1 then parts[0] else parts[0] + [sep] + Join(parts[1..], sep)
  }

  /** `s.split(sep)`: always at least one part. */
  function Split<T(==)>(s: seq<T>, sep: T): (parts: seq<seq<T>>)
    ensures |parts| >= 1
    decreases |s|
  {
    var i := IndexOf(s, sep);
    if i == |s| then [s] else [s[..i]] + Split(s[i + 1..], sep)
  }

  ghost predicate Free<T>(parts: seq<seq<T>>, sep: T) { forall p | p in parts :: sep !in p }

  lemma {:induction false} SplitFree<T>(s: seq<T>, sep: T)
    ensures Free(Split(s, sep), sep)
    decreases |s|
  {
    var i := IndexOf(s, sep);
    if i < |s| { SplitFree(s[i + 1..], sep); }
  }

  lemma IndexOfAfter<T>(a: seq<T>, c: T, b: seq<T>)
    requires c !in a
    ensures IndexOf(a + [c] + b, c) == |a|
  {
    var s := a + [c] + b;
    assert s[|a|] == c;
    assert forall j | 0 <= j < |a| :: s[j] == a[j];
    assert forall j | 0 <= j < IndexOf(s, c) :: s[..IndexOf(s, c)][j] == s[j];
  }

  lemma SplitCons<T>(a: seq<T>, sep: T, b: seq<T>)
    requires sep !in a
    ensures Split(a + [sep] + b, sep) == [a] + Split(b, sep)
  {
    IndexOfAfter(a, sep, b);
    var s := a + [sep] + b;
    assert s[..|a|] == a && s[|a| + 1..] == b;
  }

  /** Splitting undoes joining on separator-free parts. */
  lemma {:induction false} SplitJoinFree<T>(parts: seq<seq<T>>, sep: T)
    requires |parts| > 0 && Free(parts, sep)
    ensures Split(Join(parts, sep), sep) == parts
  {
    if |parts| == 1 {
      assert parts == [parts[0]];
    } else {
      forall p | p in parts[1..] ensures sep !in p { assert p in parts; }
      SplitJoinFree(parts[1..], sep);
      SplitCons(parts[0], sep, Join(parts[1..], sep));
      assert parts == [parts[0]] + parts[1..];
    }
  }

  lemma JoinCons<T>(head: seq<T>, rest: seq<seq<T>>, sep: T)
    requires |rest| > 0
    ensures Join([head] + rest, sep) == head + [sep] + Join(rest, sep)
  {
    assert ([head] + rest)[1..] == rest;
  }

  lemma JoinOne<T>(part: seq<T>, sep: T)
    ensures Join([part], sep) == part
  {
  }

  lemma SplitStep<T>(s: seq<T>, sep: T, i: nat)
    requires i == IndexOf(s, sep) < |s|
    ensures Split(s, sep) == [s[..i]] + Split(s[i + 1..], sep)
  {
  }

  lemma CutAt<T>(s: seq<T>, sep: T, i: nat)
    requires i < |s| && s[i] == sep
    ensures s == s[..i] + [sep] + s[i + 1..]
  {
  }

  lemma SplitWhole<T>(s: seq<T>, sep: T)
    requires IndexOf(s, sep) == |s|
    ensures Split(s, sep) == [s]
  {
  }

  /** Joining undoes splitting on every text. */
  lemma {:induction false} JoinSplit<T>(s: seq<T>, sep: T)
    ensures Join(Split(s, sep), sep) == s
    decreases |s|
  {
    var i := IndexOf(s, sep);
    if i == |s| {
      SplitWhole(s, sep);
      JoinOne(s, sep);
    } else {
      var rest := Split(s[i + 1..], sep);
      JoinSplit(s[i + 1..], sep);
      SplitStep(s, sep, i);
      CutAt(s, sep, i);
      JoinCons(s[..i], rest, sep);
      assert Join(Split(s, sep), sep) == Join([s[..i]] + rest, sep);
    }
  }

  /** Two separator-free heads before the same separator are equal, and so are the tails. */
  lemma CutUnique<T>(a: seq<T>, b: seq<T>, a': seq<T>, b': seq<T>, sep: T)
    requires sep !in a && sep !in a'
    requires a + [sep] + b == a' + [sep] + b'
    ensures a == a' && b == b'
  {
    var s := a + [sep] + b;
    IndexOfAfter(a, sep, b);
    IndexOfAfter(a', sep, b');
    assert s[..|a|] == a && s[..|a'|] == a';
    assert s[|a| + 1..] == b && s[|a'| + 1..] == b';
  }

  /** The same cut made at the last separator instead of the first. */
  lemma CutLastUnique<T>(a: seq<T>, b: seq<T>, a': seq<T>, b': seq<T>, sep: T)
    requires sep !in b && sep !in b'
    requires a + [sep] + b == a' + [sep] + b'
    ensures a == a' && b == b'
  {
    var s := a + [sep] + b;
    assert s[|a|] == sep && s[|a'|] == sep;
    assert forall j | |a| < j < |s| :: s[j] == b[j - |a| - 1];
    assert forall j | |a'| < j < |s| :: s[j] == b'[j - |a'| - 1];
    assert s[..|a|] == a && s[..|a'|] == a';
    assert s[|a| + 1..] == b && s[|a'| + 1..] == b';
  }

  lemma {:induction false} JoinAppend<T>(xs: seq<seq<T>>, ys: seq<seq<T>>, sep: T)
    requires |xs| > 0 && |ys| > 0
    ensures Join(xs + ys, sep) == Join(xs, sep) + [sep] + Join(ys, sep)
  {
    if |xs| == 1 {
      assert (xs + ys)[1..] == ys;
    } else {
      assert (xs + ys)[1..] == xs[1..] + ys;
      JoinAppend(xs[1..], ys, sep);
    }
  }

  /** One list after another. */
  function Concat<T>(parts: seq<seq<T>>): seq<T> {
    if parts == [] then [] else Concat(parts[..|parts| - 1]) + parts[|parts| - 1]
  }

  /** Java's `String.split` drops empty strings at the end. */
  function DropTrailing<T(==)>(parts: seq<seq<T>>): seq<seq<T>> {
    if parts != [] && parts[|parts| - 1] == [] then DropTrailing(parts[..|parts| - 1]) else parts
  }

  /** What is left is a beginning that does not end in an empty part, and all after it is empty. */
  lemma {:induction false} DropTrailingIs<T>(parts: seq<seq<T>>)
    ensures var left := DropTrailing(parts);
            && left <= parts && (left != [] ==> left[|left| - 1] != [])
            && forall i | |left| <= i < |parts| :: parts[i] == []
  {
    if parts != [] && parts[|parts| - 1] == [] {
      DropTrailingIs(parts[..|parts| - 1]);
      assert forall i | 0 <= i < |parts| - 1 :: parts[..|parts| - 1][i] == parts[i];
    }
  }
}
