/** The skill document format, read off its text: characters, lines, entries and the printed block. */
module FrontmatterText {
  import opened Basics
  import opened Text
  import opened Frontmatter
  import opened FrontmatterProofs

  /** The line boundaries: line feed, vertical tab, form feed, return, three separators, NEL, LS and PS. */
  lemma BreaksAre(c: char)
    ensures IsBreak(c) <==>
            c in [0x0A as char, 0x0B as char, 0x0C as char, 0x0D as char, 0x1C as char, 0x1D as char, 0x1E as char,
                  0x85 as char, 0x2028 as char, 0x2029 as char]
  {
  }

  /** The other white space: tab, unit separator, space and the Unicode spaces. */
  lemma SpacesAre(c: char)
    ensures IsSpace(c) <==>
            IsBreak(c)
            || c in [0x09 as char, 0x1F as char, 0x20 as char, 0xA0 as char, 0x1680 as char, 0x2000 as char, 0x2001 as char,
                     0x2002 as char, 0x2003 as char, 0x2004 as char, 0x2005 as char, 0x2006 as char, 0x2007 as char,
                     0x2008 as char, 0x2009 as char, 0x200A as char, 0x202F as char, 0x205F as char, 0x3000 as char]
  {
  }

  lemma QuotesAre(c: char)
    ensures IsQuote(c) <==> c as int == 0x22 || c as int == 0x27
  {
  }

  lemma FirstBreak(line: string, rest: string)
    requires OneLine(line) && rest != "" && IsBreak(rest[0])
    ensures BreakIndex(line + rest) == |line|
  {
    var s := line + rest;
    assert forall k | 0 <= k < |line| :: s[k] == line[k] && line[k] in line;
    assert s[|line|] == rest[0];
  }

  /** A line ends at a boundary; a return and a line feed after it are one. */
  lemma LineEnds(line: string, c: char, rest: string)
    requires OneLine(line) && IsBreak(c)
    ensures !(c == '\r' && rest != "" && rest[0] == '\n') ==> SplitLines(line + ([c] + rest)) == [line] + SplitLines(rest)
    ensures c == '\r' ==> SplitLines(line + ([c] + ("\n" + rest))) == [line] + SplitLines(rest)
  {
    FirstBreak(line, [c] + rest);
    var s := line + ([c] + rest);
    assert s[..|line|] == line && s[|line| + 1..] == rest;
    if c == '\r' {
      FirstBreak(line, [c] + ("\n" + rest));
      var t := line + ([c] + ("\n" + rest));
      assert t[..|line|] == line && t[|line| + 1] == '\n' && t[|line| + 2..] == rest;
    }
  }

  /** A last line need not end. */
  lemma LastLine(line: string)
    requires OneLine(line) && line != ""
    ensures SplitLines(line) == [line] && SplitLines("") == []
  {
    assert forall k | 0 <= k < |line| :: line[k] in line;
  }

  /** A line says something exactly when it has a colon and its first character that is no space is no `#`. */
  lemma SaysSomething(line: string)
    ensures Entry(line).Some? <==>
            ':' in line
            && exists k | 0 <= k < |line| :: !IsSpace(line[k]) && line[k] != '#' && forall j | 0 <= j < k :: IsSpace(line[j])
  {
    var i := TrimLeftSuffix(line, IsSpace);
    var a, b := StripSlice(line, IsSpace);
    if Strip(line, IsSpace) == "" {
      assert forall j | 0 <= j < |line| :: IsSpace(line[j]);
    } else {
      assert !IsSpace(line[a]);
      assert i < |line|;
      assert "#" <= TrimLeft(line, IsSpace) <==> line[i] == '#';
      assert line[i] != '#' ==> !IsSpace(line[i]) && forall j | 0 <= j < i :: IsSpace(line[j]);
    }
  }

  /** It says what stands before its first colon and, unquoted, what stands after it. */
  lemma SaysWhat(key: string, value: string)
    requires ':' !in key && Entry(key + [':'] + value).Some?
    ensures Entry(key + [':'] + value) == Some((Strip(key, IsSpace), Strip(Strip(value, IsSpace), IsQuote)))
  {
    var line := key + [':'] + value;
    IndexOfAfter(key, ':', value);
    assert line[..|key|] == key && line[|key| + 1..] == value;
  }

  /** The body read never starts with a line feed; a document without a closed header is all body. */
  lemma BodyStart(document: string)
    ensures Parse(document).1 == document || Parse(document).1 == "" || Parse(document).1[0] != '\n'
    ensures !("---" <= document) ==> Parse(document) == (map[], document)
  {
  }

  /** Some lines, each on a line of its own. */
  function Below(lines: seq<string>): string { if lines == [] then "" else "\n" + lines[0] + Below(lines[1..]) }

  lemma {:induction false} BelowBoth(a: seq<string>, b: seq<string>)
    ensures Below(a + b) == Below(a) + Below(b)
  {
    if a == [] {
      assert a + b == b;
    } else {
      BelowBoth(a[1..], b);
      assert (a + b)[1..] == a[1..] + b;
    }
  }

  lemma {:induction false} JoinBelow(first: string, lines: seq<string>)
    ensures Join([first] + lines, '\n') == first + Below(lines)
    decreases |lines|
  {
    if lines != [] {
      JoinBelow(lines[0], lines[1..]);
      assert lines == [lines[0]] + lines[1..];
      JoinCons(first, lines, '\n');
    }
  }

  /** A field's line, if the field is given. */
  function FieldLine(key: string, field: Option<string>): seq<string> { if Given(field) then [key + ": " + field.value] else [] }

  function FieldPair(key: string, field: Option<string>): seq<(string, string)> {
    if Given(field) then [(key, field.value)] else []
  }

  lemma RenderNext(fields: seq<(string, string)>, key: string, field: Option<string>)
    ensures Render(fields + FieldPair(key, field)) == Render(fields) + FieldLine(key, field)
  {
    var longer := fields + FieldPair(key, field);
    if Given(field) {
      assert longer[..|fields|] == fields && longer[|fields|] == (key, field.value);
    } else {
      assert longer == fields && Render(fields) + [] == Render(fields);
    }
  }

  lemma RenderedFields(name: string, description: Option<string>, proposer: Option<string>)
    ensures Render(Fields(name, description, proposer))
            == ["name: " + name] + FieldLine("description", description) + FieldLine("proposed-by", proposer)
  {
    var one := [("name", name)];
    assert one[..0] == [];
    assert "name" + ": " + name == "name: " + name;
    assert Render(one) == ["name: " + name];
    RenderNext(one, "description", description);
    RenderNext(one + FieldPair("description", description), "proposed-by", proposer);
  }

  lemma BelowField(key: string, field: Option<string>)
    ensures Below(FieldLine(key, field)) == if field.Some? && field.value != "" then "\n" + key + ": " + field.value else ""
  {
    var line := FieldLine(key, field);
    if Given(field) { assert line[1..] == []; }
  }

  lemma BelowRest(kept: string)
    ensures Below(["---", "", kept]) == "\n---\n\n" + kept
  {
    assert ["---", "", kept][1..] == ["", kept] && ["", kept][1..] == [kept] && [kept][1..] == [];
    assert Below([kept]) == "\n" + kept;
    assert Below(["", kept]) == "\n\n" + kept;
  }

  lemma FiveTexts(x: string, a: string, b: string, c: string, d: string)
    ensures x + (a + b + c + d) == x + a + b + c + d
  {
  }

  lemma FormatLines(name: seq<string>, described: seq<string>, proposed: seq<string>, rest: seq<string>)
    ensures Join(["---"] + (name + described + proposed + rest), '\n')
            == "---" + Below(name) + Below(described) + Below(proposed) + Below(rest)
  {
    JoinBelow("---", name + described + proposed + rest);
    BelowBoth(name + described + proposed, rest);
    BelowBoth(name + described, proposed);
    BelowBoth(name, described);
    FiveTexts("---", Below(name), Below(described), Below(proposed), Below(rest));
  }

  lemma SameLines(block: seq<string>, kept: string)
    ensures ["---"] + block + ["---"] + ["", kept] == ["---"] + (block + ["---", "", kept])
  {
  }

  /** The text of a formatted document. */
  lemma FormatText(name: string, description: Option<string>, body: string, proposer: Option<string>)
    ensures FENCE <= body ==> Format(name, description, body, proposer) == body
    ensures !(FENCE <= body) ==>
              Format(name, description, body, proposer) ==
                "---" + ("\nname: " + name)
                + (if description.Some? && description.value != "" then "\ndescription: " + description.value else "")
                + (if proposer.Some? && proposer.value != "" then "\nproposed-by: " + proposer.value else "")
                + ("\n---\n\n" + LStrip(body, '\n'))
  {
    if !(FENCE <= body) {
      var kept := LStrip(body, '\n');
      var described, proposed := FieldLine("description", description), FieldLine("proposed-by", proposer);
      RenderedFields(name, description, proposer);
      SameLines(["name: " + name] + described + proposed, kept);
      FormatLines(["name: " + name], described, proposed, ["---", "", kept]);
      BelowField("description", description);
      BelowField("proposed-by", proposer);
      BelowRest(kept);
      Texts(name, description, proposer);
    }
  }

  lemma Texts(name: string, description: Option<string>, proposer: Option<string>)
    ensures Below(["name: " + name]) == "\nname: " + name
    ensures Given(description) ==> "\n" + "description" + ": " + description.value == "\ndescription: " + description.value
    ensures Given(proposer) ==> "\n" + "proposed-by" + ": " + proposer.value == "\nproposed-by: " + proposer.value
  {
    assert ["name: " + name][1..] == [];
    assert "\n" + "description" + ": " == "\ndescription: " && "\n" + "proposed-by" + ": " == "\nproposed-by: ";
  }
}
