/** When parsing a formatted skill document gives back what was put into it. */
module FrontmatterProofs {
  import opened Basics
  import opened Text
  import opened Dicts
  import opened Frontmatter

  // -------------------------------------------------------------------------- trimming

  lemma {:induction false} TrimLeftSuffix(s: string, drop: char -> bool) returns (k: nat)
    ensures k <= |s| && TrimLeft(s, drop) == s[k..] && (k == |s| || !drop(s[k]))
    ensures forall j | 0 <= j < k :: drop(s[j])
  {
    if s == [] || !drop(s[0]) {
      k := 0;
    } else {
      k := TrimLeftSuffix(s[1..], drop);
      k := k + 1;
    }
  }

  lemma {:induction false} TrimRightPrefix(s: string, drop: char -> bool) returns (k: nat)
    ensures k <= |s| && TrimRight(s, drop) == s[..k] && (k == 0 || !drop(s[k - 1]))
    ensures forall j | k <= j < |s| :: drop(s[j])
  {
    if s == [] || !drop(s[|s| - 1]) {
      k := |s|;
    } else {
      k := TrimRightPrefix(s[..|s| - 1], drop);
    }
  }

  /** Trimming keeps the stretch of the text that is left when all that can be dropped at its ends is. */
  lemma StripSlice(s: string, drop: char -> bool) returns (i: nat, k: nat)
    ensures i <= k <= |s| && Strip(s, drop) == s[i..k]
    ensures (forall j | 0 <= j < i :: drop(s[j])) && forall j | k <= j < |s| :: drop(s[j])
    ensures i < k ==> !drop(s[i]) && !drop(s[k - 1])
  {
    i := TrimLeftSuffix(s, drop);
    k := TrimRightPrefix(s[i..], drop);
    assert forall j | i + k <= j < |s| :: s[j] == s[i..][j - i];
    if i < |s| {
      TrimRightKeepsHead(s[i..], drop);
    }
    k := i + k;
  }

  lemma StripOneLine(s: string, drop: char -> bool)
    requires OneLine(s)
    ensures OneLine(Strip(s, drop))
  {
    var i, k := StripSlice(s, drop);
    assert forall c | c in s[i..k] :: c in s;
  }

  /** A text that starts and ends with something to keep is kept whole. */
  lemma StripKeeps(s: string, drop: char -> bool)
    requires s != [] && !drop(s[0]) && !drop(s[|s| - 1])
    ensures Strip(s, drop) == s
  {
  }

  lemma StripKeepsHead(s: string, drop: char -> bool)
    requires s != [] && !drop(s[0])
    ensures Strip(s, drop) != [] && Strip(s, drop)[0] == s[0] && TrimLeft(s, drop) == s
  {
    var k := TrimRightPrefix(s, drop);
    TrimRightKeepsHead(s, drop);
  }

  lemma {:induction false} TrimRightKeepsHead(s: string, drop: char -> bool)
    requires s != [] && !drop(s[0])
    ensures TrimRight(s, drop) != [] && TrimRight(s, drop)[0] == s[0]
  {
    if drop(s[|s| - 1]) { TrimRightKeepsHead(s[..|s| - 1], drop); }
  }

  // ------------------------------------------------------------------------- lines

  lemma {:induction false} SplitLinesOneLine(s: string)
    ensures forall line | line in SplitLines(s) :: OneLine(line)
    decreases |s|
  {
    if s != [] {
      var i := BreakIndex(s);
      if i == |s| {
        forall c | c in s ensures !IsBreak(c) {}
      } else {
        var next := if s[i] == '\r' && i + 1 < |s| && s[i + 1] == '\n' then i + 2 else i + 1;
        SplitLinesOneLine(s[next..]);
        assert OneLine(s[..i]);
      }
    }
  }

  lemma BreakIndexAfter(line: string, t: string)
    requires OneLine(line)
    ensures BreakIndex(line + ['\n'] + t) == |line|
  {
    var s := line + ['\n'] + t;
    assert forall k | 0 <= k < |line| :: s[k] == line[k] && line[k] in line;
    assert s[|line|] == '\n' && IsBreak('\n');
  }

  lemma SplitLinesCons(line: string, t: string)
    requires OneLine(line)
    ensures SplitLines(line + ['\n'] + t) == [line] + SplitLines(t)
  {
    BreakIndexAfter(line, t);
    var s := line + ['\n'] + t;
    assert s[..|line|] == line && s[|line| + 1..] == t;
  }

  ghost predicate AllOneLine(lines: seq<string>) { forall line | line in lines :: OneLine(line) }

  lemma JoinHead(lines: seq<string>, t: string)
    requires |lines| > 1
    ensures Join(lines, '\n') + ['\n'] + t == lines[0] + ['\n'] + (Join(lines[1..], '\n') + ['\n'] + t)
  {
  }

  lemma BlockStep(lines: seq<string>, t: string, rest: string, after: seq<string>)
    requires |lines| > 1 && OneLine(lines[0])
    requires rest == Join(lines[1..], '\n') + ['\n'] + t && SplitLines(rest) == lines[1..] + after
    ensures SplitLines(Join(lines, '\n') + ['\n'] + t) == lines + after
  {
    JoinHead(lines, t);
    HeadBack(lines, after);
    SplitLinesCons(lines[0], rest);
  }

  lemma HeadBack(lines: seq<string>, after: seq<string>)
    requires lines != []
    ensures [lines[0]] + (lines[1..] + after) == lines + after
  {
  }

  lemma {:induction false} SplitLinesBlock(lines: seq<string>, t: string, after: seq<string>)
    requires lines != [] && AllOneLine(lines) && SplitLines(t) == after
    ensures SplitLines(Join(lines, '\n') + ['\n'] + t) == lines + after
  {
    assert lines[0] in lines;
    if |lines| == 1 {
      SplitLinesCons(lines[0], t);
      assert lines == [lines[0]];
    } else {
      SplitLinesBlock(lines[1..], t, after);
      BlockStep(lines, t, Join(lines[1..], '\n') + ['\n'] + t, after);
    }
  }

  // ------------------------------------------------------------------------- the body

  /** The only line boundary in the text is the line feed. */
  ghost predicate OnlyLineFeeds(s: string) { forall c | c in s :: IsBreak(c) ==> c == '\n' }

  /** The text without one line feed at its end. */
  function Chomp(s: string): string { if s != [] && s[|s| - 1] == '\n' then s[..|s| - 1] else s }

  /** What is left of a body after the parser has split it into lines and joined them again. */
  function Rejoined(s: string): string { LStrip(Join(SplitLines(s), '\n'), '\n') }

  lemma ChompStep(line: string, t: string)
    requires t != []
    ensures Chomp(line + ['\n'] + t) == line + ['\n'] + Chomp(t)
  {
  }

  lemma {:induction false} JoinSplitLines(s: string)
    requires OnlyLineFeeds(s)
    ensures Join(SplitLines(s), '\n') == Chomp(s)
    decreases |s|
  {
    if s != [] {
      var i := BreakIndex(s);
      if i < |s| {
        assert s[i] in s;
        var line, t := s[..i], s[i + 1..];
        assert s == line + ['\n'] + t;
        assert SplitLines(s) == [line] + SplitLines(t);
        JoinSplitLines(t);
        if t != [] {
          JoinCons(line, SplitLines(t), '\n');
          ChompStep(line, t);
        }
      } else {
        assert !IsBreak(s[|s| - 1]);
      }
    }
  }

  lemma {:induction false} JoinOneLines(lines: seq<string>)
    requires AllOneLine(lines)
    ensures OnlyLineFeeds(Join(lines, '\n'))
  {
    if |lines| == 1 {
      assert OneLine(lines[0]);
    } else if |lines| > 1 {
      assert OneLine(lines[0]);
      assert AllOneLine(lines[1..]);
      JoinOneLines(lines[1..]);
    }
  }

  /** A body survives, up to one line feed at its end, exactly when line feeds are its only boundaries. */
  lemma BodySurvives(s: string)
    requires s == [] || s[0] != '\n'
    ensures Rejoined(s) == Chomp(s) <==> OnlyLineFeeds(s)
  {
    if OnlyLineFeeds(s) {
      JoinSplitLines(s);
      assert Chomp(s) == [] || Chomp(s)[0] != '\n';
    }
    var joined := Join(SplitLines(s), '\n');
    SplitLinesOneLine(s);
    JoinOneLines(SplitLines(s));
    var r := Rejoined(s);
    var cut := LStripSuffix(joined, '\n');
    forall c | c in r ensures c in joined {}
    if r == Chomp(s) {
      forall c | c in s ensures IsBreak(c) ==> c == '\n' {
        assert c in Chomp(s) || c == '\n';
      }
    }
  }

  // ----------------------------------------------------------------------- the fields

  /** What the parser makes of a value. */
  function Unquoted(value: string): string { Strip(Strip(value, IsSpace), IsQuote) }

  /** A value that fits on a line and has nothing at its ends for the parser to remove. */
  ghost predicate Plain(value: string) { OneLine(value) && Unquoted(value) == value }

  function ReadBack(fields: seq<(string, string)>): map<string, string> {
    if fields == [] then map[] else
      var last := fields[|fields| - 1];
      ReadBack(fields[..|fields| - 1])[last.0 := Unquoted(last.1)]
  }

  /** A key the parser reads as it is written. */
  predicate PlainKey(key: string) {
    key != "" && ':' !in key && !IsSpace(key[0]) && key[0] != '#' && key[0] != '-' && !IsSpace(key[|key| - 1])
  }

  lemma ColonSplits(key: string, value: string)
    requires ':' !in key
    ensures var line := key + ": " + value;
            IndexOf(line, ':') == |key| && line[..|key|] == key && line[|key| + 1..] == " " + value
  {
    var line := key + ": " + value;
    assert line == key + [':'] + (" " + value);
    IndexOfAfter(key, ':', " " + value);
  }

  lemma FieldEntry(key: string, value: string)
    requires PlainKey(key)
    ensures Entry(key + ": " + value) == Some((key, Unquoted(value)))
    ensures Strip(key + ": " + value, IsSpace) != FENCE
  {
    var line := key + ": " + value;
    assert line[0] == key[0];
    ColonSplits(key, value);
    StripKeepsHead(line, IsSpace);
    StripKeeps(key, IsSpace);
    assert Strip(" " + value, IsSpace) == Strip(value, IsSpace) by { assert (" " + value)[1..] == value; }
  }

  ghost predicate PlainKeys(fields: seq<(string, string)>) { forall f | f in fields :: PlainKey(f.0) }

  lemma EntriesAppend(lines: seq<string>, line: string, key: string, value: string)
    requires Entry(line) == Some((key, value))
    ensures Entries(lines + [line]) == Entries(lines)[key := value]
  {
    assert (lines + [line])[..|lines|] == lines;
  }

  lemma {:induction false} RenderedEntries(fields: seq<(string, string)>)
    requires PlainKeys(fields)
    ensures Entries(Render(fields)) == ReadBack(fields)
  {
    if fields != [] {
      var n := |fields| - 1;
      var (key, value) := fields[n];
      assert PlainKeys(fields[..n]);
      RenderedEntries(fields[..n]);
      assert fields[n] in fields;
      FieldEntry(key, value);
      EntriesAppend(Render(fields[..n]), key + ": " + value, key, Unquoted(value));
    }
  }

  /** No rendered line closes the block, and each is one line if its key and value are. */
  lemma {:induction false} RenderedLines(fields: seq<(string, string)>)
    requires PlainKeys(fields)
    ensures |Render(fields)| == |fields|
    ensures forall line | line in Render(fields) :: Strip(line, IsSpace) != FENCE
    ensures (forall f | f in fields :: OneLine(f.0) && OneLine(f.1)) ==> AllOneLine(Render(fields))
  {
    if fields != [] {
      var n := |fields| - 1;
      assert PlainKeys(fields[..n]);
      RenderedLines(fields[..n]);
      assert fields[n] in fields;
      FieldEntry(fields[n].0, fields[n].1);
    }
  }

  lemma {:induction false} EntriesOneLine(lines: seq<string>)
    requires AllOneLine(lines)
    ensures forall k | k in Entries(lines) :: OneLine(Entries(lines)[k])
  {
    if lines != [] {
      var n := |lines| - 1;
      assert AllOneLine(lines[..n]);
      EntriesOneLine(lines[..n]);
      assert lines[n] in lines;
      var i := IndexOf(lines[n], ':');
      if i < |lines[n]| {
        var value := lines[n][i + 1..];
        assert OneLine(value);
        StripOneLine(value, IsSpace);
        StripOneLine(Strip(value, IsSpace), IsQuote);
      }
    }
  }

  lemma FieldsPlainKeys(name: string, description: Option<string>, proposer: Option<string>)
    ensures PlainKeys(Fields(name, description, proposer))
  {
    assert PlainKey("name") && PlainKey("description") && PlainKey("proposed-by");
  }

  // ------------------------------------------------------------------- the round trip

  function Block(fields: seq<(string, string)>): seq<string> { [FENCE] + Render(fields) + [FENCE] }

  function Document(fields: seq<(string, string)>, body: string): string {
    Join(Block(fields) + ["", body], '\n')
  }

  lemma {:induction false} FenceIndexIs(lines: seq<string>, from: nat, n: nat)
    requires from <= n < |lines| && Strip(lines[n], IsSpace) == FENCE
    requires forall i | from <= i < n :: Strip(lines[i], IsSpace) != FENCE
    ensures FenceIndex(lines, from) == n
    decreases n - from
  {
    if from < n { FenceIndexIs(lines, from + 1, n); }
  }

  lemma DocumentLines(fields: seq<(string, string)>, body: string)
    requires AllOneLine(Block(fields))
    ensures SplitLines(Document(fields, body)) == Block(fields) + ([""] + SplitLines(body))
  {
    var block := Block(fields);
    JoinAppend(block, ["", body], '\n');
    assert Join(["", body], '\n') == "" + ['\n'] + body;
    SplitLinesCons("", body);
    SplitLinesBlock(block, "" + ['\n'] + body, [""] + SplitLines(body));
  }

  lemma DocumentFenced(fields: seq<(string, string)>, body: string)
    ensures FENCE <= Document(fields, body)
  {
    var lines := Block(fields) + ["", body];
    assert lines[0] == FENCE;
    assert Join(lines, '\n') == lines[0] + ['\n'] + Join(lines[1..], '\n');
  }

  /** Lines whose first fence after the opening one is at `n`. */
  lemma FencedLines(lines: seq<string>, body: string, n: nat)
    requires 1 <= n < |lines| && Strip(lines[n], IsSpace) == FENCE
    requires forall i | 1 <= i < n :: Strip(lines[i], IsSpace) != FENCE
    ensures ParseLines(lines, body) == (Entries(lines[1..n]), LStrip(Join(lines[n + 1..], '\n'), '\n'))
  {
    FenceIndexIs(lines, 1, n);
  }

  lemma JoinBlankFirst(lines: seq<string>)
    ensures LStrip(Join([""] + lines, '\n'), '\n') == LStrip(Join(lines, '\n'), '\n')
  {
    if lines != [] {
      var s := Join(lines, '\n');
      assert ([""] + lines)[1..] == lines;
      assert Join([""] + lines, '\n') == ['\n'] + s;
      assert (['\n'] + s)[1..] == s;
    }
  }

  /** The first line after the opening one that closes a block is its own last. */
  lemma BlockFenced(fields: seq<(string, string)>, rest: seq<string>)
    requires PlainKeys(fields)
    ensures var lines, n := Block(fields) + rest, |Render(fields)| + 1;
            && n < |lines| && Strip(lines[n], IsSpace) == FENCE && lines[1..n] == Render(fields) && lines[n + 1..] == rest
            && forall i | 1 <= i < n :: Strip(lines[i], IsSpace) != FENCE
  {
    var rendered, lines := Render(fields), Block(fields) + rest;
    var n := |rendered| + 1;
    RenderedLines(fields);
    StripKeeps(FENCE, IsSpace);
    forall i | 1 <= i < n ensures Strip(lines[i], IsSpace) != FENCE {
      assert lines[i] == rendered[i - 1] && rendered[i - 1] in rendered;
    }
    assert lines[n] == FENCE;
  }

  lemma BlockLines(fields: seq<(string, string)>, after: seq<string>, body: string)
    requires PlainKeys(fields)
    ensures ParseLines(Block(fields) + ([""] + after), body) == (ReadBack(fields), LStrip(Join(after, '\n'), '\n'))
  {
    BlockFenced(fields, [""] + after);
    FencedLines(Block(fields) + ([""] + after), body, |Render(fields)| + 1);
    RenderedEntries(fields);
    JoinBlankFirst(after);
  }

  lemma ParseDocument(fields: seq<(string, string)>, body: string)
    requires PlainKeys(fields) && AllOneLine(Block(fields))
    ensures Parse(Document(fields, body)) == (ReadBack(fields), Rejoined(body))
  {
    DocumentLines(fields, body);
    DocumentFenced(fields, body);
    BlockLines(fields, SplitLines(body), Document(fields, body));
  }

  ghost predicate PlainFields(fields: seq<(string, string)>) { forall f | f in fields :: Plain(f.1) }

  ghost predicate OneLineFields(fields: seq<(string, string)>) { forall f | f in fields :: OneLine(f.1) }

  lemma {:induction false} DictAt(fields: seq<(string, string)>, i: nat)
    requires DistinctKeys(fields) && i < |fields|
    ensures fields[i].0 in AsMap(fields) && AsMap(fields)[fields[i].0] == fields[i].1
    ensures fields[i].0 in ReadBack(fields) && ReadBack(fields)[fields[i].0] == Unquoted(fields[i].1)
  {
    var n := |fields| - 1;
    if i < n { DictAt(fields[..n], i); }
  }

  lemma {:induction false} PlainReadBack(fields: seq<(string, string)>)
    requires PlainFields(fields)
    ensures ReadBack(fields) == AsMap(fields)
  {
    if fields != [] {
      var n := |fields| - 1;
      assert PlainFields(fields[..n]);
      PlainReadBack(fields[..n]);
      assert fields[n] in fields;
    }
  }

  /** Parsed values never span lines. */
  lemma ParsedOneLine(body: string)
    ensures forall k | k in Parse(body).0 :: OneLine(Parse(body).0[k])
  {
    if FENCE <= body {
      var lines := SplitLines(body);
      var end := FenceIndex(lines, 1);
      SplitLinesOneLine(body);
      if end < |lines| {
        assert AllOneLine(lines[1..end]);
        EntriesOneLine(lines[1..end]);
      }
    }
  }

  lemma BlockOneLine(fields: seq<(string, string)>)
    requires PlainKeys(fields) && OneLineFields(fields) && forall f | f in fields :: OneLine(f.0)
    ensures AllOneLine(Block(fields))
  {
    RenderedLines(fields);
    assert OneLine(FENCE);
  }

  /** Reading the written document gives the fields and the body, but for one final line feed. */
  predicate ReadsBack(fields: seq<(string, string)>, body: string) {
    Parse(Document(fields, body)) == (AsMap(fields), Chomp(body))
  }

  /** Reading a written document back gives the same fields and body exactly when all are plain. */
  lemma DocumentRoundTrip(fields: seq<(string, string)>, body: string)
    requires PlainKeys(fields) && DistinctKeys(fields) && forall f | f in fields :: OneLine(f.0)
    requires body == "" || body[0] != '\n'
    ensures ReadsBack(fields, body) <==> PlainFields(fields) && OnlyLineFeeds(body)
  {
    BodySurvives(body);
    if PlainFields(fields) {
      BlockOneLine(fields);
      ParseDocument(fields, body);
      PlainReadBack(fields);
    }
    if Parse(Document(fields, body)) == (AsMap(fields), Chomp(body)) {
      ParsedOneLine(Document(fields, body));
      forall i | 0 <= i < |fields| ensures OneLine(fields[i].1) { DictAt(fields, i); }
      BlockOneLine(fields);
      ParseDocument(fields, body);
      forall i | 0 <= i < |fields| ensures Plain(fields[i].1) { DictAt(fields, i); }
    }
  }

  /** Parsing a formatted skill gives its fields, and its body without leading line feeds and one trailing one. */
  predicate FormatsBack(name: string, description: Option<string>, body: string, proposer: Option<string>) {
    Parse(Format(name, description, body, proposer)) == (AsMap(Fields(name, description, proposer)), Chomp(LStrip(body, '\n')))
  }

  /**
   * It does so exactly when every stated field is plain and the body has no line boundaries but line
   * feeds. (A body that already opens with a fence is left alone.)
   */
  lemma FormatRoundTrip(name: string, description: Option<string>, body: string, proposer: Option<string>)
    requires !(FENCE <= body)
    ensures FormatsBack(name, description, body, proposer) <==>
            PlainFields(Fields(name, description, proposer)) && OnlyLineFeeds(LStrip(body, '\n'))
  {
    FormatsAsDocument(name, description, body, proposer);
    FieldsRoundTrip(name, description, LStrip(body, '\n'), proposer);
  }

  lemma FieldsRoundTrip(name: string, description: Option<string>, kept: string, proposer: Option<string>)
    requires kept == "" || kept[0] != '\n'
    ensures ReadsBack(Fields(name, description, proposer), kept) <==>
            PlainFields(Fields(name, description, proposer)) && OnlyLineFeeds(kept)
  {
    FieldsPlainKeys(name, description, proposer);
    DocumentRoundTrip(Fields(name, description, proposer), kept);
  }

  lemma FormatsAsDocument(name: string, description: Option<string>, body: string, proposer: Option<string>)
    requires !(FENCE <= body)
    ensures FormatsBack(name, description, body, proposer) == ReadsBack(Fields(name, description, proposer), LStrip(body, '\n'))
  {
    FormatIs(name, description, body, proposer);
  }

  lemma FormatIs(name: string, description: Option<string>, body: string, proposer: Option<string>)
    requires !(FENCE <= body)
    ensures Format(name, description, body, proposer) == Document(Fields(name, description, proposer), LStrip(body, '\n'))
  {
  }

  /** Fields that fit on a line come back trimmed and unquoted, whatever the body is. */
  lemma FormatReadBack(name: string, description: Option<string>, body: string, proposer: Option<string>)
    requires !(FENCE <= body) && OneLineFields(Fields(name, description, proposer))
    ensures Parse(Format(name, description, body, proposer)).0 == ReadBack(Fields(name, description, proposer))
  {
    var fields := Fields(name, description, proposer);
    FieldsPlainKeys(name, description, proposer);
    FormatIs(name, description, body, proposer);
    BlockOneLine(fields);
    ParseDocument(fields, LStrip(body, '\n'));
  }

  /** The fields alone survive whatever the body is. */
  lemma FormatFields(name: string, description: Option<string>, body: string, proposer: Option<string>)
    requires !(FENCE <= body) && PlainFields(Fields(name, description, proposer))
    ensures Parse(Format(name, description, body, proposer)).0 == AsMap(Fields(name, description, proposer))
  {
    FormatReadBack(name, description, body, proposer);
    PlainReadBack(Fields(name, description, proposer));
  }

  /** A rejection note reads back as the fields of the skill, with the document at the end of its body. */
  lemma RejectionRoundTrip(name: string, description: Option<string>, proposer: Option<string>,
                           reviewer: string, reason: string, document: string)
    requires PlainFields(Fields(name, description, proposer))
    requires OnlyLineFeeds(reviewer) && OnlyLineFeeds(reason) && OnlyLineFeeds(document)
    ensures var note := Format(name, description, RejectionBody(reviewer, reason, document), proposer);
            Parse(note).0 == AsMap(Fields(name, description, proposer))
            && (document != "" ==>
                  Parse(note).1 == "REJECTED by " + reviewer + "\n\nReason: " + reason + "\n\n---\n\n" + Chomp(document))
  {
    var body := RejectionBody(reviewer, reason, document);
    RejectionBodyIs(reviewer, reason, document);
    assert FormatsBack(name, description, body, proposer) by { FormatRoundTrip(name, description, body, proposer); }
    if document != "" { ChompNote(reviewer, reason, document); }
  }

  lemma ChompEnd(head: string, document: string)
    requires document != ""
    ensures Chomp(head + document) == head + Chomp(document)
  {
  }

  lemma ChompNote(reviewer: string, reason: string, document: string)
    requires document != ""
    ensures Chomp(RejectionBody(reviewer, reason, document))
            == "REJECTED by " + reviewer + "\n\nReason: " + reason + "\n\n---\n\n" + Chomp(document)
  {
    ChompEnd("REJECTED by " + reviewer + "\n\nReason: " + reason + "\n\n---\n\n", document);
  }

  lemma Layout(first: string, third: string, tail: string)
    ensures first + (['\n'] + (['\n'] + (third + (['\n'] + tail)))) == first + ['\n'] + ("" + ['\n'] + (third + ['\n'] + tail))
  {
    assert third + (['\n'] + tail) == third + ['\n'] + tail;
  }

  lemma Spread(a: string, reviewer: string, b: string, reason: string, c: string)
    ensures a + reviewer + (['\n'] + (['\n'] + b)) + reason + c == (a + reviewer) + (['\n'] + (['\n'] + ((b + reason) + c)))
  {
  }

  lemma ThreeLines(first: string, third: string, tail: string)
    requires OneLine(first) && OneLine(third)
    ensures var lines := SplitLines(first + ['\n'] + ("" + ['\n'] + (third + ['\n'] + tail)));
            |lines| >= 3 && lines[0] == first && lines[2] == third
  {
    SplitLinesCons(third, tail);
    SplitLinesCons("", third + ['\n'] + tail);
    SplitLinesCons(first, "" + ['\n'] + (third + ['\n'] + tail));
  }

  lemma RejectionShape(reviewer: string, reason: string, rest: string)
    ensures "REJECTED by " + reviewer + "\n\nReason: " + reason + ("\n\n---\n\n" + rest)
            == ("REJECTED by " + reviewer) + ['\n'] + ("" + ['\n'] + (("Reason: " + reason) + ['\n'] + ("\n---\n\n" + rest)))
  {
    var tail := "\n---\n\n" + rest;
    assert "\n\nReason: " == ['\n'] + (['\n'] + "Reason: ");
    assert "\n\n---\n\n" + rest == ['\n'] + tail;
    Spread("REJECTED by ", reviewer, "Reason: ", reason, ['\n'] + tail);
    Layout("REJECTED by " + reviewer, "Reason: " + reason, tail);
  }

  /** The first and the third line of a note's body say who refused and why. */
  lemma RejectionLines(reviewer: string, reason: string, rest: string)
    requires OneLine(reviewer) && OneLine(reason)
    ensures var lines := SplitLines("REJECTED by " + reviewer + "\n\nReason: " + reason + ("\n\n---\n\n" + rest));
            |lines| >= 3 && lines[0] == "REJECTED by " + reviewer && lines[2] == "Reason: " + reason
  {
    RejectionShape(reviewer, reason, rest);
    assert OneLine("REJECTED by ") && OneLine("Reason: ");
    ThreeLines("REJECTED by " + reviewer, "Reason: " + reason, "\n---\n\n" + rest);
  }

  lemma RejectionBodyIs(reviewer: string, reason: string, document: string)
    ensures var body := RejectionBody(reviewer, reason, document);
            body != "" && body[0] == 'R' && LStrip(body, '\n') == body
            && body == RejectionBody(reviewer, reason, "") + document
            && (OnlyLineFeeds(reviewer) && OnlyLineFeeds(reason) && OnlyLineFeeds(document) ==> OnlyLineFeeds(body))
  {
  }

  // ----------------------------------------------------------------------- any document

  /** The lines between the fences, if the document opens with one and closes it. */
  function Header(document: string): seq<string> {
    if !(FENCE <= document) then [] else
      var lines := SplitLines(document);
      var end := FenceIndex(lines, 1);
      if end == |lines| then [] else lines[1..end]
  }

  predicate Says(lines: seq<string>, key: string, i: int) {
    0 <= i < |lines| && Entry(lines[i]).Some? && Entry(lines[i]).value.0 == key
  }

  predicate LastSays(lines: seq<string>, key: string, i: int) {
    Says(lines, key, i) && forall j | i < j < |lines| :: !Says(lines, key, j)
  }

  lemma HeaderEntries(document: string)
    ensures Parse(document).0 == Entries(Header(document))
  {
  }

  lemma SaysBefore(before: seq<string>, line: string, key: string)
    ensures forall i :: Says(before + [line], key, i) <==>
              if i == |before| then Entry(line).Some? && Entry(line).value.0 == key else Says(before, key, i)
  {
  }

  lemma LastSaysNext(before: seq<string>, line: string, key: string)
    ensures Says(before + [line], key, |before|) ==> forall i :: LastSays(before + [line], key, i) <==> i == |before|
    ensures !Says(before + [line], key, |before|) ==>
              forall i :: LastSays(before + [line], key, i) <==> LastSays(before, key, i)
  {
    SaysBefore(before, line, key);
  }

  lemma EntriesNext(before: seq<string>, line: string, key: string)
    ensures Says(before + [line], key, |before|) ==>
              key in Entries(before + [line]) && Entries(before + [line])[key] == Entry(line).value.1
    ensures !Says(before + [line], key, |before|) ==>
              (key in Entries(before + [line]) <==> key in Entries(before))
              && (key in Entries(before) ==> Entries(before + [line])[key] == Entries(before)[key])
  {
    assert (before + [line])[..|before|] == before;
  }

  /** A field is what the last line with its key says. */
  lemma {:induction false} EntriesAre(lines: seq<string>, key: string)
    ensures key in Entries(lines) <==> exists i :: LastSays(lines, key, i)
    ensures forall i | LastSays(lines, key, i) :: key in Entries(lines) && Entries(lines)[key] == Entry(lines[i]).value.1
  {
    if lines != [] {
      var n := |lines| - 1;
      EntriesAre(lines[..n], key);
      assert lines == lines[..n] + [lines[n]];
      LastSaysNext(lines[..n], lines[n], key);
      EntriesNext(lines[..n], lines[n], key);
      if Says(lines, key, n) { assert LastSays(lines, key, n); }
    }
  }
}
