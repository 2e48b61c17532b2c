/** Tuples of segments written as slash-joined paths, and what prefixes of such paths mean. */
module Paths {
  import opened Text

  predicate ValidSegment(s: string) { s != "" && '/' !in s }

  ghost predicate SlashFree(parts: seq<string>) { Free(parts, '/') }

  /** `a` is matched segment by segment, its last segment only as a prefix. */
  predicate LoosePrefix(a: seq<string>, b: seq<string>)
    requires a != []
  {
    var n := |a| - 1;
    n < |b| && a[..n] == b[..n] && a[n] <= b[n]
  }

  lemma HeadPrefix(x: string, y: string, rest: string)
    requires '/' !in x
    ensures x <= y + "/" + rest <==> x <= y
  {
    var s := y + "/" + rest;
    if |x| <= |y| {
      assert s[..|x|] == y[..|x|];
    } else {
      assert s[|y|] == '/';
      assert x[|y|] in x;
    }
  }

  lemma ConsPrefix(x: string, xs: string, y: string, ys: string)
    requires '/' !in x && '/' !in y
    ensures x + "/" + xs <= y + "/" + ys <==> x == y && xs <= ys
  {
    var s, t := x + "/" + xs, y + "/" + ys;
    if x == y {
      var n := |x| + 1;
      assert s[n..] == xs && t[n..] == ys && s[..n] == t[..n];
      if xs <= ys {
        assert t == s + ys[|xs|..];
      }
      if s <= t {
        assert xs == ys[..|xs|] by { assert s == t[..|s|]; assert t[..|s|][n..] == ys[..|xs|]; }
      }
    } else if s <= t {
      assert t == s + t[|s|..];
      assert t == x + ['/'] + (xs + t[|s|..]) && t == y + ['/'] + ys;
      CutUnique(x, xs + t[|s|..], y, ys, '/');
    }
  }

  lemma TooLong(x: string, xs: string, y: string)
    requires '/' !in y
    ensures !(x + "/" + xs <= y)
  {
    if |x + "/" + xs| <= |y| { assert y[|x|] in y; assert (x + "/" + xs)[|x|] == '/'; }
  }

  /** Of slash-free segments, one joined text is a prefix of another exactly when the tuples match loosely. */
  lemma {:induction false} JoinedPrefix(a: seq<string>, b: seq<string>)
    requires a != [] && b != [] && SlashFree(a) && SlashFree(b)
    ensures Join(a, '/') <= Join(b, '/') <==> LoosePrefix(a, b)
  {
    assert a[0] in a && b[0] in b;
    if |a| == 1 {
      if |b| > 1 { HeadPrefix(a[0], b[0], Join(b[1..], '/')); }
    } else if |b| == 1 {
      TooLong(a[0], Join(a[1..], '/'), b[0]);
    } else {
      var a', b' := a[1..], b[1..];
      JoinedPrefix(a', b');
      ConsPrefix(a[0], Join(a', '/'), b[0], Join(b', '/'));
      LooseCons(a, b);
    }
  }

  lemma LooseCons(a: seq<string>, b: seq<string>)
    requires |a| > 1 && |b| > 1
    ensures LoosePrefix(a, b) <==> a[0] == b[0] && LoosePrefix(a[1..], b[1..])
  {
    var n := |a| - 1;
    if n < |b| {
      assert a[..n] == [a[0]] + a[1..][..n - 1] && b[..n] == [b[0]] + b[1..][..n - 1];
    }
  }

  lemma JoinSlash(a: seq<string>)
    requires a != []
    ensures Join(a + [""], '/') == Join(a, '/') + "/"
  {
    JoinAppend(a, [""], '/');
    JoinOne("", '/');
  }

  lemma LooseBlank(a: seq<string>, b: seq<string>)
    ensures LoosePrefix(a + [""], b) <==> |a| < |b| && a == b[..|a|]
  {
    assert (a + [""])[..|a|] == a && (a + [""])[|a|] == "";
  }

  /** With a slash after it, the joined prefix matches exactly the tuples it is a proper prefix of. */
  lemma JoinedPrefixSlash(a: seq<string>, b: seq<string>)
    requires a != [] && b != [] && SlashFree(a) && SlashFree(b)
    ensures Join(a, '/') + "/" <= Join(b, '/') <==> |a| < |b| && a == b[..|a|]
  {
    JoinSlash(a);
    LooseBlank(a, b);
    assert SlashFree(a + [""]);
    JoinedPrefix(a + [""], b);
  }
}
