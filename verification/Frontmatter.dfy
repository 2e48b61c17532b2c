/** The skill document format: a `---` fenced block of `key: value` lines before the body. */
module Frontmatter {
  import opened Basics
  import opened Text

  /** Python's line boundaries. */
  predicate IsBreak(c: char) {
    var u := c as int;
    0x0A <= u <= 0x0D || 0x1C <= u <= 0x1E || u == 0x85 || u == 0x2028 || u == 0x2029
  }

  /** Python's whitespace, which includes every line boundary. */
  predicate IsSpace(c: char) {
    var u := c as int;
    || IsBreak(c)
    || u == 0x09 || u == 0x1F || u == 0x20 || u == 0xA0 || u == 0x1680
    || 0x2000 <= u <= 0x200A || u == 0x202F || u == 0x205F || u == 0x3000
  }

  predicate IsQuote(c: char) { c == '"' || c == '\'' }

  function TrimLeft(s: string, drop: char -> bool): (r: string)
  {
    if s == [] || !drop(s[0]) then s else TrimLeft(s[1..], drop)
  }

  function TrimRight(s: string, drop: char -> bool): (r: string)
  {
    if s == [] || !drop(s[|s| - 1]) then s else TrimRight(s[..|s| - 1], drop)
  }

  function Strip(s: string, drop: char -> bool): string { TrimRight(TrimLeft(s, drop), drop) }

  function BreakIndex(s: string): (i: nat)
    ensures i <= |s| && (i < |s| ==> IsBreak(s[i]))
    ensures forall k | 0 <= k < i :: !IsBreak(s[k])
  {
    if s == [] || IsBreak(s[0]) then 0 else
      var i := 1 + BreakIndex(s[1..]);
      assert forall k | 1 <= k < i :: s[k] == s[1..][k - 1];
      i
  }

  predicate OneLine(s: string) { forall c | c in s :: !IsBreak(c) }

  /** `s.splitlines()`; a carriage return and a line feed after it are one boundary. */
  function SplitLines(s: string): (lines: seq<string>)
    ensures s != [] ==> lines != []
    decreases |s|
  {
    if s == [] then [] else
      var i := BreakIndex(s);
      if i == |s| then [s] else
        var next := if s[i] == '\r' && i + 1 < |s| && s[i + 1] == '\n' then i + 2 else i + 1;
        [s[..i]] + SplitLines(s[next..])
  }

  const FENCE := "---"

  /** The first line from `from` on that closes the block, or the number of lines. */
  function FenceIndex(lines: seq<string>, from: nat): (i: nat)
    requires from <= |lines|
    ensures from <= i <= |lines|
    decreases |lines| - from
  {
    if from == |lines| || Strip(lines[from], IsSpace) == FENCE then from else FenceIndex(lines, from + 1)
  }

  /** What a line of the block says, if it says anything. */
  function Entry(line: string): Option<(string, string)> {
    var i := IndexOf(line, ':');
    if Strip(line, IsSpace) == "" || "#" <= TrimLeft(line, IsSpace) || i == |line| then None
    else Some((Strip(line[..i], IsSpace), Strip(Strip(line[i + 1..], IsSpace), IsQuote)))
  }

  /** Later lines override earlier ones. */
  function Entries(lines: seq<string>): map<string, string> {
    if lines == [] then map[] else
      var n := |lines| - 1;
      var before := Entries(lines[..n]);
      var entry := Entry(lines[n]);
      if entry.Some? then before[entry.value.0 := entry.value.1] else before
  }

  /** The fields and the rest of the document; no fields when there is no closed block. */
  function Parse(body: string): (map<string, string>, string) {
    if FENCE <= body then ParseLines(SplitLines(body), body) else (map[], body)
  }

  function ParseLines(lines: seq<string>, body: string): (map<string, string>, string)
    requires lines != []
  {
    var end := FenceIndex(lines, 1);
    if end == |lines| then (map[], body)
    else (Entries(lines[1..end]), LStrip(Join(lines[end + 1..], '\n'), '\n'))
  }

  /** The dictionary as it is filled, line by line. */
  method ReadEntries(lines: seq<string>) returns (meta: map<string, string>)
    ensures meta == Entries(lines)
  {
    meta := map[];
    for i := 0 to |lines|
      invariant meta == Entries(lines[..i])
    {
      var line := lines[i];
      assert lines[..i + 1][..i] == lines[..i];
      if Strip(line, IsSpace) == "" || "#" <= TrimLeft(line, IsSpace) {
        continue;
      }
      var colon := IndexOf(line, ':');
      if colon < |line| {
        meta := meta[Strip(line[..colon], IsSpace) := Strip(Strip(line[colon + 1..], IsSpace), IsQuote)];
      }
    }
    assert lines[..|lines|] == lines;
  }

  method FindFence(lines: seq<string>) returns (end: nat)
    requires lines != []
    ensures end == FenceIndex(lines, 1)
  {
    end := 1;
    while end < |lines| && Strip(lines[end], IsSpace) != FENCE
      invariant 1 <= end <= |lines| && FenceIndex(lines, 1) == FenceIndex(lines, end)
    {
      end := end + 1;
    }
  }

  /** The parser as it runs: look for the closing fence, then read the lines before it. */
  method ParseFrontmatter(body: string) returns (meta: map<string, string>, rest: string)
    ensures (meta, rest) == Parse(body)
  {
    if !(FENCE <= body) {
      return map[], body;
    }
    var lines := SplitLines(body);
    var end := FindFence(lines);
    if end == |lines| {
      return map[], body;
    }
    meta := ReadEntries(lines[1..end]);
    rest := LStrip(Join(lines[end + 1..], '\n'), '\n');
  }

  /** An absent field and an empty one are both left out. */
  predicate Given(field: Option<string>) { field.Some? && field.value != "" }

  /** The fields a document states, in the order they are written. */
  function Fields(name: string, description: Option<string>, proposer: Option<string>): seq<(string, string)> {
    [("name", name)]
    + (if Given(description) then [("description", description.value)] else [])
    + (if Given(proposer) then [("proposed-by", proposer.value)] else [])
  }

  function Render(fields: seq<(string, string)>): seq<string> {
    if fields == [] then []
    else Render(fields[..|fields| - 1]) + [fields[|fields| - 1].0 + ": " + fields[|fields| - 1].1]
  }

  function Format(name: string, description: Option<string>, body: string, proposer: Option<string>): string {
    if FENCE <= body then body
    else Join([FENCE] + Render(Fields(name, description, proposer)) + [FENCE] + ["", LStrip(body, '\n')], '\n')
  }

  /** The body of the note `reject` files with a refused document. */
  function RejectionBody(reviewer: string, reason: string, document: string): string {
    "REJECTED by " + reviewer + "\n\nReason: " + reason + "\n\n---\n\n" + document
  }
}
