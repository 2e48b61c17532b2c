/** The wire formats of URLs, on texts: dotted namespaces, table paths, and the documented examples. */
module UrlExamples {
  import opened Basics
  import opened Text
  import opened Dicts
  import opened Percent
  import opened Namespaces
  import opened Forms

  /** A dotted text is read as the levels between its dots. */
  lemma ParseDotted(levels: Levels)
    requires forall l | l in levels :: l != [] && (0x2E as Byte) !in l && (0x1F as Byte) !in l
    ensures ParseText(Join(levels, 0x2E)) == levels && JavaParseText(Join(levels, 0x2E)) == levels
  {
    var text := Join(levels, DOT);
    NoSeparator(levels);
    NonEmptyIs(levels);
    SameParse(text);
    if levels == [] {
      OneBlank();
    } else {
      assert Free(levels, DOT);
      SplitJoinFree(levels, DOT);
    }
  }

  lemma {:induction false} NoSeparator(levels: Levels)
    requires forall l | l in levels :: SEPARATOR !in l
    ensures SEPARATOR !in Join(levels, DOT)
  {
    if |levels| > 1 {
      NoSeparator(levels[1..]);
      assert levels[0] in levels;
    } else if |levels| == 1 {
      assert levels[0] in levels;
    }
  }

  /** A text with the separator in it is read as the levels between the separators, dots and all. */
  lemma ParseSeparated(levels: Levels)
    requires |levels| >= 2 && forall l | l in levels :: l != [] && (0x1F as Byte) !in l
    ensures ParseText(Join(levels, 0x1F)) == levels
  {
    NonEmptyIs(levels);
    JoinContains(levels);
    SplitJoinFree(levels, SEPARATOR);
  }

  // ------------------------------------------------------------------------------ table paths

  lemma SlashSplits(a: Bytes, b: Bytes)
    requires SLASH !in a
    ensures Split(a + [SLASH] + b, SLASH) == [a] + Split(b, SLASH)
  {
    SplitCons(a, SLASH, b);
  }

  /** The parts of a table path between its slashes. */
  lemma TablePathParts(warehouse: Bytes, levels: Levels, name: Bytes)
    ensures Split(TablePath(warehouse, levels, name), 0x2F) ==
            [[], Ascii("lakekeeper"), Ascii("v1"), Encode(warehouse, PythonSafe), Ascii("namespaces"), EncodeNamespace(levels),
             Ascii("generic-tables"), Encode(name, PythonSafe)]
  {
    var w, n, e := Encode(warehouse, PythonSafe), EncodeNamespace(levels), Encode(name, PythonSafe);
    EncodedSlashFree(warehouse);
    EncodedSlashFree(JoinLevels(levels));
    EncodedSlashFree(name);
    var lake, v1, ns, tables := Ascii("lakekeeper"), Ascii("v1"), Ascii("namespaces"), Ascii("generic-tables");
    Literals();
    var last := tables + [SLASH] + e;
    var afterNs := n + [SLASH] + last;
    var afterW := ns + [SLASH] + afterNs;
    Regroup(w, n, e);
    Rooted(lake, v1, w + [SLASH] + afterW);
    assert TablePath(warehouse, levels, name) == [] + [SLASH] + (lake + [SLASH] + (v1 + [SLASH] + (w + [SLASH] + afterW))) by {
      assert MIDDLE[1..] + (n + [SLASH] + (COLLECTION[1..] + [SLASH] + e)) == afterW by {
        assert ns + [SLASH] + afterNs == MIDDLE[1..] + afterNs;
      }
    }
    SlashSplits([], lake + [SLASH] + (v1 + [SLASH] + (w + [SLASH] + afterW)));
    SlashSplits(lake, v1 + [SLASH] + (w + [SLASH] + afterW));
    SlashSplits(v1, w + [SLASH] + afterW);
    SlashSplits(w, afterW);
    SlashSplits(ns, afterNs);
    SlashSplits(n, last);
    SlashSplits(tables, e);
    SplitWhole(e, SLASH);
    EightParts([], lake, v1, w, ns, n, tables, e);
  }

  lemma EightParts(a: Bytes, b: Bytes, c: Bytes, d: Bytes, e: Bytes, f: Bytes, g: Bytes, h: Bytes)
    ensures [a] + ([b] + ([c] + ([d] + ([e] + ([f] + ([g] + [h])))))) == [a, b, c, d, e, f, g, h]
  {
  }

  lemma Rooted(lake: Bytes, v1: Bytes, rest: Bytes)
    requires lake == Ascii("lakekeeper") && v1 == Ascii("v1")
    ensures ROOT + rest == [] + [SLASH] + (lake + [SLASH] + (v1 + [SLASH] + rest))
  {
    assert ROOT == [SLASH] + lake + [SLASH] + v1 + [SLASH];
  }

  /** The fixed parts have no slash, and are what the constants say. */
  lemma Literals()
    ensures SLASH !in Ascii("lakekeeper") && SLASH !in Ascii("v1") && SLASH !in Ascii("namespaces") && SLASH !in Ascii("generic-tables")
    ensures MIDDLE[1..] == Ascii("namespaces") + [SLASH] && COLLECTION[1..] == Ascii("generic-tables")
  {
  }

  lemma PartsAt(parts: seq<Bytes>, a: Bytes, b: Bytes, c: Bytes, d: Bytes, e: Bytes, f: Bytes, g: Bytes, h: Bytes)
    requires parts == [a, b, c, d, e, f, g, h]
    ensures |parts| == 8 && parts[3] == d && parts[5] == f && parts[7] == h
  {
  }

  /** So the warehouse, the levels and the name are read back from the fourth, sixth and eighth part. */
  lemma TablePathReads(warehouse: Bytes, levels: Levels, name: Bytes)
    requires Proper(levels)
    ensures var parts := Split(TablePath(warehouse, levels, name), 0x2F);
            && |parts| == 8 && Decode(parts[3], false) == Some(warehouse)
            && DecodeNamespace(parts[5]) == Some(levels) && Decode(parts[7], false) == Some(name)
  {
    var w, n, e := Encode(warehouse, PythonSafe), EncodeNamespace(levels), Encode(name, PythonSafe);
    var lake, v1, ns, tables := Ascii("lakekeeper"), Ascii("v1"), Ascii("namespaces"), Ascii("generic-tables");
    TablePathParts(warehouse, levels, name);
    PartsAt(Split(TablePath(warehouse, levels, name), 0x2F), [], lake, v1, w, ns, n, tables, e);
    DecodeEncode(warehouse, PythonSafe, false);
    DecodeEncode(name, PythonSafe, false);
    NamespaceRoundTrip(levels);
  }

  // ------------------------------------------------------------------------ known answers

  lemma EncodeStep(b: Byte, rest: Bytes, safe: Byte -> bool)
    ensures Encode([b] + rest, safe) == EncodeByte(b, safe) + Encode(rest, safe)
  {
    assert ([b] + rest)[1..] == rest;
  }

  lemma {:induction false} SafeTail(s: Bytes)
    requires forall b | b in s :: PythonSafe(b)
    ensures Encode(s, PythonSafe) == s
  {
    if s != [] {
      SafeTail(s[1..]);
      assert s == [s[0]] + s[1..];
    }
  }

  const AI: Bytes := [0x61, 0x69]
  const TEST: Bytes := [0x74, 0x65, 0x73, 0x74]

  lemma LevelTexts()
    ensures Ascii("ai") == AI && Ascii("test") == TEST
  {
  }

  lemma JoinedExample(sep: Byte)
    ensures Join([AI, TEST], sep) == AI + [sep] + TEST
  {
    JoinOne(TEST, sep);
    JoinCons(AI, [TEST], sep);
    assert [AI, TEST] == [AI] + [TEST];
  }

  lemma {:induction false} EncodeBoth(a: Bytes, b: Bytes, safe: Byte -> bool)
    ensures Encode(a + b, safe) == Encode(a, safe) + Encode(b, safe)
  {
    if a == [] {
      assert a + b == b;
    } else {
      var t := a[1..];
      EncodeBoth(t, b, safe);
      EncodeStep(a[0], t + b, safe);
      Reassociate([a[0]], t, b);
      Reassociate(EncodeByte(a[0], safe), Encode(t, safe), Encode(b, safe));
      assert a == [a[0]] + t;
    }
  }

  lemma EncodedSeparator()
    ensures Encode([SEPARATOR], PythonSafe) == [0x25, 0x31, 0x46]
  {
    var none: Bytes := [];
    EncodeStep(SEPARATOR, none, PythonSafe);
    assert [SEPARATOR] + none == [SEPARATOR];
    assert Triplet(SEPARATOR) == [0x25, 0x31, 0x46];
  }

  lemma EncodedExample()
    ensures Encode(AI + [SEPARATOR] + TEST, PythonSafe) == AI + [0x25, 0x31, 0x46] + TEST
  {
    SafeTail(AI);
    SafeTail(TEST);
    EncodedSeparator();
    EncodeBoth(AI + [SEPARATOR], TEST, PythonSafe);
    EncodeBoth(AI, [SEPARATOR], PythonSafe);
  }

  lemma ProperExample()
    ensures Proper([AI, TEST]) && NonEmpty([AI, TEST]) == [AI, TEST]
  {
    NonEmptyIs([AI, TEST]);
  }

  /** The namespace ai.test in a path: the example both clients document. */
  lemma EncodeExample()
    ensures EncodeNamespace([Ascii("ai"), Ascii("test")]) == Ascii("ai%1Ftest")
  {
    LevelTexts();
    ProperExample();
    JoinedExample(SEPARATOR);
    EncodedExample();
    assert Ascii("ai%1Ftest") == AI + [0x25, 0x31, 0x46] + TEST;
  }

  lemma JavaEncodeExample()
    ensures JavaEncodeNamespace([Ascii("ai"), Ascii("test")]) == Ascii("ai%1Ftest")
  {
    LevelTexts();
    ProperExample();
    EncodeExample();
    assert TILDE !in AI && STAR !in AI && TILDE !in TEST && STAR !in TEST;
    SameEncodingIff([AI, TEST]);
  }

  lemma ParseExample()
    ensures ParseText(Ascii("ai.test")) == [Ascii("ai"), Ascii("test")]
  {
    LevelTexts();
    JoinedExample(DOT);
    assert Ascii("ai.test") == AI + [DOT] + TEST;
    ParseDotted([AI, TEST]);
  }

  lemma FormStep(b: Byte, rest: Bytes)
    ensures FormEncode([b] + rest) == (if b == SPACE then [PLUS] else EncodeByte(b, JavaSafe)) + FormEncode(rest)
  {
    assert ([b] + rest)[1..] == rest;
  }

  /** In forms a space is a plus, and what has a meaning there is escaped. */
  lemma FormExample()
    ensures FormEncode(Ascii("a b")) == Ascii("a+b") && FormEncode(Ascii("&")) == Ascii("%26")
  {
    var none: Bytes := [];
    FormStep(0x62, none);
    FormStep(0x20, [0x62] + none);
    FormStep(0x61, [0x20] + ([0x62] + none));
    assert Ascii("a b") == [0x61] + ([0x20] + ([0x62] + none));
    FormStep(0x26, none);
    assert Ascii("&") == [0x26] + none;
  }

  lemma PairExample()
    ensures EncodePair((Ascii("x"), Ascii("a b"))) == Ascii("x=a+b") && EncodePair((Ascii("y"), Ascii("&"))) == Ascii("y=%26")
  {
    var none: Bytes := [];
    FormExample();
    FormStep(0x78, none);
    FormStep(0x79, none);
    assert Ascii("x") == [0x78] + none && Ascii("y") == [0x79] + none;
  }

  lemma PairsExample()
    ensures EncodeForm([(Ascii("x"), Ascii("a b")), (Ascii("y"), Ascii("&"))]) == Ascii("x=a+b&y=%26")
  {
    var first, second := (Ascii("x"), Ascii("a b")), (Ascii("y"), Ascii("&"));
    TwoPairs(first, second);
    PairExample();
    assert Ascii("x=a+b") + [0x26] + Ascii("y=%26") == Ascii("x=a+b&y=%26");
  }

  lemma TwoPairs(first: (Bytes, Bytes), second: (Bytes, Bytes))
    ensures EncodeForm([first, second]) == EncodePair(first) + [0x26] + EncodePair(second)
  {
    var nothing: Pairs := [];
    assert EncodePairs(nothing) == [];
    PrintStep(nothing, first);
    PrintStep([first], second);
    assert nothing + [first] == [first] && [first] + [second] == [first, second];
  }

  /** A part without an equals sign has an empty value; a key that comes again keeps its place and takes the new value. */
  lemma ParseParts(k: Bytes, v: Bytes, mend: Mending)
    requires EQUALS !in k && Decode(k, true).Some? && Decode(v, true).Some? && mend([]) == []
    ensures DecodePair(k + [EQUALS] + v, mend) == Some((mend(Decode(k, true).value), mend(Decode(v, true).value)))
    ensures DecodePair(k, mend) == Some((mend(Decode(k, true).value), []))
  {
    IndexOfAfter(k, EQUALS, v);
    var pair := k + [EQUALS] + v;
    assert pair[..|k|] == k && pair[|k| + 1..] == v && k[..|k|] == k;
    var none: Bytes := [];
    assert Decode(none, true) == Some(none);
  }
}
