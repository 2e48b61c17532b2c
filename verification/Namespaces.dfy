/** Namespaces in URLs: levels joined by the unit separator, encoded as one path segment. */
module Namespaces {
  import opened Basics
  import opened Text
  import opened Percent

  const SEPARATOR: Byte := 0x1F
  const DOT: Byte := 0x2E

  type Levels = seq<Bytes>

  /** Empty levels are dropped wherever levels come from. */
  function NonEmpty(levels: Levels): Levels {
    if levels == [] then [] else Kept(levels[0]) + NonEmpty(levels[1..])
  }

  function Kept(level: Bytes): Levels { if level == [] then [] else [level] }

  /** A namespace given as a text: split at the separator if there is one, else at dots. */
  function ParseText(s: Bytes): Levels { NonEmpty(Split(s, if SEPARATOR in s then SEPARATOR else DOT)) }

  function JoinLevels(levels: Levels): Bytes { Join(NonEmpty(levels), SEPARATOR) }

  function EncodeNamespace(levels: Levels): Bytes { Encode(JoinLevels(levels), PythonSafe) }

  /** The Java client's encoding: form encoding with the plus signs replaced. */
  function JavaEncodeNamespace(levels: Levels): Bytes { PlusToTriplet(FormEncode(JoinLevels(levels))) }

  /** What the server makes of an encoded namespace. */
  function DecodeNamespace(segment: Bytes): Option<Levels> {
    var joined := Decode(segment, false);
    if joined == None then None else Some(NonEmpty(Split(joined.value, SEPARATOR)))
  }

  function JavaParseText(s: Bytes): Levels {
    if s == [] then [] else NonEmpty(DropTrailing(Split(s, if SEPARATOR in s then SEPARATOR else DOT)))
  }

  ghost predicate Proper(levels: Levels) { forall l | l in levels :: l != [] && SEPARATOR !in l }

  lemma NonEmptyCons(level: Bytes, rest: Levels)
    ensures NonEmpty([level] + rest) == Kept(level) + NonEmpty(rest)
  {
    assert ([level] + rest)[1..] == rest;
  }

  lemma {:induction false} NonEmptyIs(levels: Levels)
    ensures forall l | l in NonEmpty(levels) :: l != [] && l in levels
    ensures NonEmpty(levels) == levels <==> forall l | l in levels :: l != []
    ensures |NonEmpty(levels)| <= |levels|
  {
    if levels != [] {
      var head, tail := levels[0], levels[1..];
      NonEmptyIs(tail);
      assert levels == [head] + tail;
      assert head in levels;
      if head != [] {
        SameTail([head], NonEmpty(tail), tail);
        assert NonEmpty(levels) == [head] + NonEmpty(tail);
        assert forall l | l in levels :: l == head || l in tail;
        assert forall l | l in tail :: l in levels;
      } else {
        assert NonEmpty(levels) == NonEmpty(tail);
      }
    }
  }

  lemma SameTail<T>(head: seq<T>, a: seq<T>, b: seq<T>)
    ensures head + a == head + b <==> a == b
  {
    if head + a == head + b { assert (head + a)[|head|..] == a && (head + b)[|head|..] == b; }
  }

  lemma JoinedSplits(levels: Levels)
    requires Proper(levels)
    ensures NonEmpty(Split(Join(levels, SEPARATOR), SEPARATOR)) == levels
  {
    NonEmptyIs(levels);
    if levels == [] {
      SplitWhole<Byte>([], SEPARATOR);
    } else {
      assert Free(levels, SEPARATOR);
      SplitJoinFree(levels, SEPARATOR);
    }
  }

  /** Decoding an encoded namespace gives its levels back exactly when none is empty or holds the separator. */
  lemma NamespaceRoundTrip(levels: Levels)
    ensures DecodeNamespace(EncodeNamespace(levels)) == Some(levels) <==> Proper(levels)
  {
    var joined := JoinLevels(levels);
    DecodeEncode(joined, PythonSafe, false);
    var parts := Split(joined, SEPARATOR);
    NonEmptyIs(parts);
    NonEmptyIs(levels);
    SplitFree(joined, SEPARATOR);
    if Proper(levels) { JoinedSplits(levels); }
    assert forall l | l in NonEmpty(parts) :: l != [] && SEPARATOR !in l;
  }

  lemma {:induction false} JoinContains(levels: Levels)
    requires |levels| >= 2
    ensures SEPARATOR in Join(levels, SEPARATOR)
  {
    assert Join(levels, SEPARATOR)[|levels[0]|] == SEPARATOR;
  }

  /**
   * Reading a joined namespace back as a text gives its levels exactly when there is not just one
   * level with a dot in it.
   */
  lemma ParseJoined(levels: Levels)
    requires Proper(levels)
    ensures ParseText(JoinLevels(levels)) == levels <==> !(|levels| == 1 && DOT in levels[0])
  {
    NonEmptyIs(levels);
    if |levels| >= 2 {
      JoinContains(levels);
      JoinedSplits(levels);
    } else if |levels| == 1 {
      var level := levels[0];
      assert level in levels && levels == [level];
      JoinOne(level, SEPARATOR);
      var parts := Split(level, DOT);
      SplitFree(level, DOT);
      NonEmptyIs(parts);
      assert JoinLevels(levels) == level && ParseText(level) == NonEmpty(parts);
      if DOT in level {
        assert forall l | l in NonEmpty(parts) :: DOT !in l;
        assert level !in NonEmpty(parts);
      } else {
        SplitWhole(level, DOT);
      }
    } else {
      SplitWhole<Byte>([], DOT);
      OneBlank();
    }
  }

  lemma {:induction false} NonEmptySnoc(levels: Levels)
    ensures NonEmpty(levels + [[]]) == NonEmpty(levels)
  {
    if levels == [] {
      OneBlank();
      assert levels + [[]] == [[]];
    } else {
      NonEmptySnoc(levels[1..]);
      NonEmptyCons(levels[0], levels[1..] + [[]]);
      assert levels + [[]] == [levels[0]] + (levels[1..] + [[]]);
    }
  }

  lemma OneBlank()
    ensures NonEmpty([[]]) == []
  {
    var blank: Levels := [[]];
    assert blank[1..] == [];
  }

  lemma {:induction false} DropTrailingSame(levels: Levels)
    ensures NonEmpty(DropTrailing(levels)) == NonEmpty(levels)
  {
    if levels != [] && levels[|levels| - 1] == [] {
      var n := |levels| - 1;
      DropTrailingSame(levels[..n]);
      NonEmptySnoc(levels[..n]);
      assert levels == levels[..n] + [[]];
    }
  }

  /** Both clients read a textual namespace alike. */
  lemma SameParse(s: Bytes)
    ensures JavaParseText(s) == ParseText(s)
  {
    if s == [] {
      SplitWhole<Byte>([], DOT);
      OneBlank();
    } else {
      DropTrailingSame(Split(s, if SEPARATOR in s then SEPARATOR else DOT));
    }
  }

  /** The two clients' encodings of any namespace decode to the same levels. */
  lemma SameDecoding(levels: Levels)
    ensures DecodeNamespace(JavaEncodeNamespace(levels)) == DecodeNamespace(EncodeNamespace(levels))
  {
    var joined := JoinLevels(levels);
    JavaPathEncoding(joined);
    DecodeEncode(joined, JavaSafe, false);
    DecodeEncode(joined, PythonSafe, false);
  }

  lemma {:induction false} InJoined(levels: Levels, b: Byte)
    requires b != SEPARATOR
    ensures b in Join(levels, SEPARATOR) <==> exists l | l in levels :: b in l
  {
    if |levels| == 1 {
      assert levels[0] in levels;
      assert levels == [levels[0]];
    } else if |levels| > 1 {
      InJoined(levels[1..], b);
      assert levels == [levels[0]] + levels[1..];
    }
  }

  /** They are the same text exactly when no level holds a tilde or an asterisk. */
  lemma SameEncodingIff(levels: Levels)
    requires Proper(levels)
    ensures JavaEncodeNamespace(levels) == EncodeNamespace(levels) <==>
            forall l | l in levels :: TILDE !in l && STAR !in l
  {
    var joined := JoinLevels(levels);
    NonEmptyIs(levels);
    JavaPathEncoding(joined);
    SameEncoding(joined, JavaSafe, PythonSafe);
    InJoined(levels, TILDE);
    InJoined(levels, STAR);
    assert forall b: Byte :: JavaSafe(b) == PythonSafe(b) <==> b != TILDE && b != STAR;
  }

  // ------------------------------------------------------------------------- table paths

  const ROOT := Ascii("/lakekeeper/v1/")
  const MIDDLE := Ascii("/namespaces/")
  const COLLECTION := Ascii("/generic-tables")

  /** `/lakekeeper/v1/{warehouse}/namespaces/{namespace}/generic-tables` */
  function CollectionPath(warehouse: Bytes, levels: Levels): Bytes {
    ROOT + Encode(warehouse, PythonSafe) + MIDDLE + EncodeNamespace(levels) + COLLECTION
  }

  function TablePath(warehouse: Bytes, levels: Levels, name: Bytes): Bytes {
    CollectionPath(warehouse, levels) + [SLASH] + Encode(name, PythonSafe)
  }

  lemma EncodedSlashFree(s: Bytes)
    ensures SLASH !in Encode(s, PythonSafe)
  {
    EncodedBytes(s, PythonSafe);
  }

  lemma EncodeInjective(s: Bytes, t: Bytes)
    requires Encode(s, PythonSafe) == Encode(t, PythonSafe)
    ensures s == t
  {
    DecodeEncode(s, PythonSafe, false);
    DecodeEncode(t, PythonSafe, false);
  }

  lemma Reassociate(a: Bytes, b: Bytes, c: Bytes)
    ensures a + b + c == a + (b + c)
  {
  }

  /** `/a` between two parts. */
  lemma Slashed(a: Bytes, m: Bytes, b: Bytes)
    requires m != [] && m[0] == SLASH
    ensures a + m + b == a + [SLASH] + (m[1..] + b)
  {
    assert m == [SLASH] + m[1..];
  }

  /** A path is cut at the slashes around what it encodes. */
  lemma Regroup(w: Bytes, n: Bytes, e: Bytes)
    ensures ROOT + w + MIDDLE + n + COLLECTION + [SLASH] + e
            == ROOT + (w + [SLASH] + (MIDDLE[1..] + (n + [SLASH] + (COLLECTION[1..] + [SLASH] + e))))
  {
    var tail := [SLASH] + e;
    Reassociate(ROOT + w + MIDDLE + n + COLLECTION, [SLASH], e);
    Reassociate(ROOT + w + MIDDLE + n, COLLECTION, tail);
    Reassociate(ROOT + w + MIDDLE, n, COLLECTION + tail);
    Reassociate(ROOT + w, MIDDLE, n + (COLLECTION + tail));
    Reassociate(ROOT, w, MIDDLE + (n + (COLLECTION + tail)));
    Reassociate(n, COLLECTION, tail);
    Slashed(n, COLLECTION, tail);
    Reassociate(COLLECTION[1..], [SLASH], e);
    Reassociate(w, MIDDLE, n + COLLECTION + tail);
    Slashed(w, MIDDLE, n + COLLECTION + tail);
  }

  lemma PiecesUnique(w: Bytes, n: Bytes, e: Bytes, w': Bytes, n': Bytes, e': Bytes)
    requires SLASH !in w && SLASH !in w' && SLASH !in n && SLASH !in n'
    requires ROOT + w + MIDDLE + n + COLLECTION + [SLASH] + e == ROOT + w' + MIDDLE + n' + COLLECTION + [SLASH] + e'
    ensures w == w' && n == n' && e == e'
  {
    var middle, last := MIDDLE[1..], COLLECTION[1..] + [SLASH];
    Regroup(w, n, e);
    Regroup(w', n', e');
    var tail, tail' := n + [SLASH] + (last + e), n' + [SLASH] + (last + e');
    SameTail(ROOT, w + [SLASH] + (middle + tail), w' + [SLASH] + (middle + tail'));
    CutUnique(w, middle + tail, w', middle + tail', SLASH);
    SameTail(middle, tail, tail');
    CutUnique(n, last + e, n', last + e', SLASH);
    SameTail(last, e, e');
  }

  /** Tables with different warehouses, levels or names never share a path. */
  lemma TablePathInjective(warehouse: Bytes, levels: Levels, name: Bytes, warehouse': Bytes, levels': Levels, name': Bytes)
    requires Proper(levels) && Proper(levels')
    requires TablePath(warehouse, levels, name) == TablePath(warehouse', levels', name')
    ensures warehouse == warehouse' && levels == levels' && name == name'
  {
    EncodedSlashFree(warehouse);
    EncodedSlashFree(warehouse');
    EncodedSlashFree(JoinLevels(levels));
    EncodedSlashFree(JoinLevels(levels'));
    PiecesUnique(Encode(warehouse, PythonSafe), EncodeNamespace(levels), Encode(name, PythonSafe),
                 Encode(warehouse', PythonSafe), EncodeNamespace(levels'), Encode(name', PythonSafe));
    EncodeInjective(warehouse, warehouse');
    EncodeInjective(name, name');
    NamespaceRoundTrip(levels);
    NamespaceRoundTrip(levels');
  }
}
