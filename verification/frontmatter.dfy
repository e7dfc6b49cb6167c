/**
 The YAML frontmatter block at the top of a page, and the page title
 (`parseFrontmatter`, `hasFrontmatterTitle`, `extractTitleFromHeading`
 and `addFrontmatterTitle` of the fixer script).

 The script reads the block with regular expressions; their matching is
 written out here as searches for the least position where a closing
 delimiter starts, which is what a lazy `[\s\S]*?` followed by the
 delimiter finds.
 */
module Frontmatter {
  import opened Text

  // ---------------------------------------------------------------------
  // Delimiters
  // ---------------------------------------------------------------------

  /** `/^---\r?\n/`: the opening delimiter, and where the block's text starts. */
  function OpeningMarker(c: string): (m: Option<nat>)
    ensures m.Some? <==> StartsWith(c, "---\n") || StartsWith(c, "---\r\n")
    ensures m.Some? ==> 4 <= m.value <= |c| && c[m.value - 1] == '\n' && c[..3] == "---"
    ensures m.Some? ==> c[..m.value] == "---\n" || c[..m.value] == "---\r\n"
  {
    if StartsWith(c, "---\n") then Some(4)
    else if StartsWith(c, "---\r\n") then Some(5)
    else None
  }

  /** The closings the parser looks for after the block's text: `\r?\n---`. */
  const ParseClosers: seq<string> := ["\r\n---", "\n---"]

  /** The closings the heading extraction strips through: `\r?\n---\r?\n`,
      listed so that the first one that fits is the one the greedy `\r?` takes. */
  const StripClosers: seq<string> := ["\r\n---\r\n", "\r\n---\n", "\n---\r\n", "\n---\n"]

  /** One of `pats` starts at position `p` of `c`. */
  predicate ClosesAt(c: string, p: int, pats: seq<string>) {
    0 <= p <= |c| && exists i :: 0 <= i < |pats| && OccursAt(c, p, pats[i])
  }

  /** The least position at or after `from` where one of `pats` starts. */
  function FirstClose(c: string, from: nat, pats: seq<string>): (r: Option<nat>)
    requires from <= |c|
    ensures r.Some? ==> from <= r.value <= |c| && ClosesAt(c, r.value, pats)
    ensures r.Some? ==> forall p :: from <= p < r.value ==> !ClosesAt(c, p, pats)
    ensures r.None? ==> forall p :: from <= p <= |c| ==> !ClosesAt(c, p, pats)
    decreases |c| - from
  {
    if ClosesAt(c, from, pats) then Some(from)
    else if from == |c| then None
    else FirstClose(c, from + 1, pats)
  }

  /** The text between the delimiters, as the capture group of
      `/^---\r?\n([\s\S]*?)\r?\n---/` holds it; `None` when there is no match. */
  function FrontmatterBlock(c: string): Option<string> {
    match OpeningMarker(c)
    case None => None
    case Some(m) =>
      match FirstClose(c, m, ParseClosers)
      case None => None
      case Some(p) => Some(c[m..p])
  }

  // ---------------------------------------------------------------------
  // Fields
  // ---------------------------------------------------------------------

  /** A `key: value` line: the text before the first colon, trimmed, and the
      text after it, trimmed; a line whose first colon is its first character,
      or that has no colon, defines nothing. */
  function FieldOf(line: string): (f: Option<(string, string)>)
    ensures f.Some? <==> exists i :: 0 < i && FirstColon(line, i)
    ensures forall i :: 0 < i && FirstColon(line, i) ==> f == Some(SplitAt(line, i))
  {
    FirstColonIsIndex(line);
    var k := IndexOf(line, ':');
    if k.Some? && k.value > 0 then
      assert FirstColon(line, k.value);
      Some(SplitAt(line, k.value))
    else None
  }

  /** The text before position `i`, trimmed, and the text after it, trimmed. */
  function SplitAt(line: string, i: nat): (string, string)
    requires i < |line|
  {
    (Trim(line[..i]), Trim(line[i + 1..]))
  }

  /** Position `i` holds the first colon of the line. */
  predicate FirstColon(line: string, i: int) {
    0 <= i < |line| && line[i] == ':' && ':' !in line[..i]
  }

  /** A position holding a colon with none before it is where `indexOf` finds the colon. */
  lemma FirstColonIsIndex(line: string)
    ensures forall j :: FirstColon(line, j) ==> IndexOf(line, ':') == Some(j)
  {
    match IndexOf(line, ':')
    case None =>
      forall j | 0 <= j < |line|
        ensures line[j] != ':'
      {
        assert line[j] in line;
      }
    case Some(i) => FirstColonUnique(line, i);
  }

  /** The first colon of a line is the only position holding a colon with none before it. */
  lemma FirstColonUnique(line: string, i: nat)
    requires i < |line| && line[i] == ':' && ':' !in line[..i]
    ensures forall j :: 0 <= j < |line| && line[j] == ':' && ':' !in line[..j] ==> j == i
  {
    forall j | 0 <= j < i
      ensures line[j] != ':'
    {
      assert line[j] == line[..i][j];
    }
    forall j | i < j <= |line|
      ensures ':' in line[..j]
    {
      assert line[..j][i] == ':';
    }
  }

  /** No edge whitespace: what `trim` leaves. */
  predicate Trimmed(s: string) {
    s == [] || (!IsSpace(s[0]) && !IsSpace(s[|s| - 1]))
  }

  /** A key and value as a block line gives them: each trimmed and on one
      line, the key without a colon. */
  predicate CleanField(key: string, value: string) {
    && ':' !in key && '\n' !in key && '\n' !in value
    && Trimmed(key) && Trimmed(value)
  }

  /** What `trim` leaves of a text lacking a character lacks it too. */
  lemma TrimKeepsOut(x: string, c: char)
    requires c !in x
    ensures c !in Trim(x) && Trimmed(Trim(x))
  {
    TrimSpan(x);
    var a := IndentLength(x);
    NotInSlice(x, c, a, a + |Trim(x)|);
  }

  lemma FieldOfClean(line: string)
    requires '\n' !in line
    ensures FieldOf(line).Some? ==> CleanField(FieldOf(line).value.0, FieldOf(line).value.1)
  {
    match IndexOf(line, ':')
    case None =>
    case Some(i) =>
      if i > 0 {
        NotInSlice(line, '\n', 0, i);
        NotInSlice(line, '\n', i + 1, |line|);
        TrimKeepsOut(line[..i], ':');
        TrimKeepsOut(line[..i], '\n');
        TrimKeepsOut(line[i + 1..], '\n');
      }
  }

  /** The map of the fields `field` reads from `lines`, a later line
      overwriting an earlier one with the same key. */
  function FieldsBy(lines: seq<string>, field: string -> Option<(string, string)>): map<string, string>
    decreases |lines|
  {
    if |lines| == 0 then map[]
    else
      var init := FieldsBy(lines[..|lines| - 1], field);
      match field(lines[|lines| - 1])
      case None => init
      case Some(f) => init[f.0 := f.1]
  }

  predicate DefinesBy(line: string, key: string, field: string -> Option<(string, string)>) {
    field(line).Some? && field(line).value.0 == key
  }

  lemma {:induction false} FieldsByKeys(lines: seq<string>, field: string -> Option<(string, string)>, key: string)
    ensures key in FieldsBy(lines, field) <==> exists i :: 0 <= i < |lines| && DefinesBy(lines[i], key, field)
    decreases |lines|
  {
    if |lines| > 0 {
      var init := lines[..|lines| - 1];
      FieldsByKeys(init, field, key);
      assert forall i :: 0 <= i < |init| ==> init[i] == lines[i];
    }
  }

  lemma {:induction false} FieldsByAppend(a: seq<string>, b: seq<string>, field: string -> Option<(string, string)>)
    ensures FieldsBy(a + b, field) == FieldsBy(a, field) + FieldsBy(b, field)
    decreases |b|
  {
    if |b| == 0 {
      assert a + b == a;
    } else {
      var b0 := b[..|b| - 1];
      assert (a + b)[..|a + b| - 1] == a + b0;
      assert (a + b)[|a + b| - 1] == b[|b| - 1];
      FieldsByAppend(a, b0, field);
      match field(b[|b| - 1])
      case None =>
      case Some(f) => MapUnionUpdate(FieldsBy(a, field), FieldsBy(b0, field), f.0, f.1);
    }
  }

  lemma {:induction false} FieldsByLastWins(lines: seq<string>, i: nat, field: string -> Option<(string, string)>)
    requires i < |lines| && field(lines[i]).Some?
    requires forall j :: i < j < |lines| ==> !DefinesBy(lines[j], field(lines[i]).value.0, field)
    ensures var f := field(lines[i]).value;
            f.0 in FieldsBy(lines, field) && FieldsBy(lines, field)[f.0] == f.1
    decreases |lines|
  {
    if i < |lines| - 1 {
      var init := lines[..|lines| - 1];
      assert init[i] == lines[i];
      assert !DefinesBy(lines[|lines| - 1], field(lines[i]).value.0, field);
      FieldsByLastWins(init, i, field);
    }
  }

  lemma MapUnionUpdate(x: map<string, string>, y: map<string, string>, k: string, v: string)
    ensures (x + y)[k := v] == x + y[k := v]
  {
  }

  predicate DefinesKey(line: string, key: string) {
    DefinesBy(line, key, FieldOf)
  }

  /** The fields of the block's lines, a later line overwriting an earlier one
      with the same key. */
  function ParseFields(lines: seq<string>): map<string, string> {
    FieldsBy(lines, FieldOf)
  }

  /** A key is defined exactly when some line defines it. */
  lemma ParseFieldsKeys(lines: seq<string>, key: string)
    ensures key in ParseFields(lines) <==> exists i :: 0 <= i < |lines| && DefinesKey(lines[i], key)
  {
    FieldsByKeys(lines, FieldOf, key);
  }

  /** Reading more lines overwrites what the earlier lines defined: the
      fields of `a + b` are those of `a` updated with those of `b`. */
  lemma ParseFieldsAppend(a: seq<string>, b: seq<string>)
    ensures ParseFields(a + b) == ParseFields(a) + ParseFields(b)
  {
    FieldsByAppend(a, b, FieldOf);
  }

  /** The value of a key is the one on the last line that defines it. */
  lemma ParseFieldsLastWins(lines: seq<string>, i: nat)
    requires i < |lines| && FieldOf(lines[i]).Some?
    requires forall j :: i < j < |lines| ==> !DefinesKey(lines[j], FieldOf(lines[i]).value.0)
    ensures var f := FieldOf(lines[i]).value;
            f.0 in ParseFields(lines) && ParseFields(lines)[f.0] == f.1
  {
    FieldsByLastWins(lines, i, FieldOf);
  }

  /** Every field read from one-line block lines is a clean key and value. */
  lemma {:induction false} ParseFieldsClean(lines: seq<string>)
    requires forall i :: 0 <= i < |lines| ==> '\n' !in lines[i]
    ensures forall k :: k in ParseFields(lines) ==> CleanField(k, ParseFields(lines)[k])
    decreases |lines|
  {
    if |lines| > 0 {
      var init := lines[..|lines| - 1];
      var last := lines[|lines| - 1];
      assert forall i :: 0 <= i < |init| ==> init[i] == lines[i];
      ParseFieldsClean(init);
      FieldOfClean(last);
      assert ParseFields(lines) == match FieldOf(last)
                                   case None => ParseFields(init)
                                   case Some(f) => ParseFields(init)[f.0 := f.1];
    }
  }

  /** `parseFrontmatter(content)`: the fields of the block, `None` for `null`.
      The page then opens with the delimiter, and every key and value is
      trimmed and on one line, no key holding a colon. */
  function ParseFrontmatter(c: string): (r: Option<map<string, string>>)
    ensures r.Some? ==> OpeningMarker(c).Some?
    ensures r.Some? ==> forall k :: k in r.value ==> CleanField(k, r.value[k])
  {
    match FrontmatterBlock(c)
    case None => None
    case Some(block) =>
      ParseFieldsClean(Lines(block));
      Some(ParseFields(Lines(block)))
  }

  /** `hasFrontmatterTitle(content)`: a home page, or a non-empty title field.
      Only a page with a closed block can have one. */
  predicate HasFrontmatterTitle(c: string)
    ensures HasFrontmatterTitle(c) ==> FrontmatterBlock(c).Some? && StartsWith(c, "---")
  {
    match ParseFrontmatter(c)
    case None => false
    case Some(fm) => ("layout" in fm && fm["layout"] == "home") || ("title" in fm && fm["title"] != "")
  }

  // ---------------------------------------------------------------------
  // The first level-one heading
  // ---------------------------------------------------------------------

  /** `content.replace(/^---\r?\n[\s\S]*?\r?\n---\r?\n/, '')`: the text after
      a closed frontmatter block, or the whole text. */
  function StripFrontmatter(c: string): (r: string)
    ensures |r| <= |c| && r == c[|c| - |r|..]
    ensures !StartsWith(c, "---\n") && !StartsWith(c, "---\r\n") ==> r == c
  {
    match OpeningMarker(c)
    case None => c
    case Some(m) =>
      match FirstClose(c, m, StripClosers)
      case None => c
      case Some(p) => c[p + ClosingLength(c, p)..]
  }

  /** The length of the closing that starts at `p`. */
  function ClosingLength(c: string, p: nat): (n: nat)
    requires ClosesAt(c, p, StripClosers)
    ensures p + n <= |c| && c[p..p + n] in StripClosers
  {
    var n := if OccursAt(c, p, StripClosers[0]) then 7
             else if OccursAt(c, p, StripClosers[1]) then 6
             else if OccursAt(c, p, StripClosers[2]) then 6
             else 5;
    assert exists i :: 0 <= i < |StripClosers| && c[p..p + n] == StripClosers[i];
    n
  }

  /** A multiline `^`: the start of the text or the place after a line terminator. */
  predicate IsLineStart(s: string, q: int) {
    q == 0 || (0 < q <= |s| && IsLineTerminator(s[q - 1]))
  }

  /** `/^#\s+(.+)/m` matches at line start `q` with the capture starting at `m`:
      a `#`, whitespace up to `m` (line breaks included, as `\s` has them), and a
      character `.` accepts at `m`. */
  predicate HeadingMatchAt(s: string, q: int, m: int) {
    && IsLineStart(s, q) && 0 <= q && q + 2 <= m < |s|
    && s[q] == '#' && AllSpace(s[q + 1..m]) && !IsLineTerminator(s[m])
  }

  predicate HasHeadingMatch(s: string, q: int) {
    exists m :: q + 2 <= m < |s| && HeadingMatchAt(s, q, m)
  }

  /** The largest position in `[lo, hi)` holding a character other than a line terminator. */
  function LastNonTerminator(s: string, lo: nat, hi: nat): (r: Option<nat>)
    requires hi <= |s|
    ensures r.Some? ==> lo <= r.value < hi && !IsLineTerminator(s[r.value])
    ensures r.Some? ==> forall k :: r.value < k < hi ==> IsLineTerminator(s[k])
    ensures r.None? ==> forall k :: lo <= k < hi ==> IsLineTerminator(s[k])
    decreases hi
  {
    if hi <= lo then None
    else if !IsLineTerminator(s[hi - 1]) then Some(hi - 1)
    else LastNonTerminator(s, lo, hi - 1)
  }

  /** Where the capture of the heading pattern starts at `q`: the greedy `\s+`
      runs over all the whitespace after the `#`, then gives back characters
      until `.` can match one. */
  function HeadingCaptureStart(s: string, q: nat): (r: Option<nat>)
    requires q <= |s|
    ensures r.Some? ==> HeadingMatchAt(s, q, r.value)
    ensures r.Some? ==> forall m :: HeadingMatchAt(s, q, m) ==> m <= r.value
    ensures r.None? ==> !HasHeadingMatch(s, q)
  {
    if !(IsLineStart(s, q) && q + 1 < |s| && s[q] == '#' && IsSpace(s[q + 1])) then None
    else
      var e := SpaceRunEnd(s, q + 1);
      if e < |s| then
        assert forall m :: HeadingMatchAt(s, q, m) ==> m <= e;
        Some(e)
      else
        match LastNonTerminator(s, q + 2, |s|)
        case None => None
        case Some(m) => Some(m)
  }

  /** The end of the line holding position `m`. */
  function LineEnd(s: string, m: nat): (e: nat)
    requires m <= |s|
    ensures m <= e <= |s| && (e == |s| || IsLineTerminator(s[e]))
    ensures forall k :: m <= k < e ==> !IsLineTerminator(s[k])
    decreases |s| - m
  {
    if m == |s| || IsLineTerminator(s[m]) then m else LineEnd(s, m + 1)
  }

  /** The first line start at or after `from` where the heading pattern matches. */
  function FirstHeadingLine(s: string, from: nat): (r: Option<nat>)
    requires from <= |s|
    ensures r.Some? ==> from <= r.value <= |s| && HasHeadingMatch(s, r.value)
    ensures r.Some? ==> forall q :: from <= q < r.value ==> !HasHeadingMatch(s, q)
    ensures r.None? ==> forall q :: from <= q <= |s| ==> !HasHeadingMatch(s, q)
    decreases |s| - from
  {
    if HeadingCaptureStart(s, from).Some? then Some(from)
    else if from == |s| then None
    else FirstHeadingLine(s, from + 1)
  }

  /** The capture group of the first match of `/^#\s+(.+)/m`: the rest of a line. */
  function HeadingCapture(s: string): (r: Option<string>)
    ensures r.Some? ==> '\n' !in r.value && '\r' !in r.value
  {
    match FirstHeadingLine(s, 0)
    case None => None
    case Some(q) =>
      var m := HeadingCaptureStart(s, q).value;
      var cap := s[m..LineEnd(s, m)];
      assert forall k :: 0 <= k < |cap| ==> !IsLineTerminator(cap[k]);
      Some(cap)
  }

  /** `extractTitleFromHeading(content)`: the trimmed text of the first
      level-one heading after the frontmatter; a one-line text without
      surrounding whitespace. */
  function ExtractTitleFromHeading(c: string): (r: Option<string>)
    ensures r.Some? ==> '\n' !in r.value && '\r' !in r.value
    ensures r.Some? ==> r.value == [] || (!IsSpace(r.value[0]) && !IsSpace(r.value[|r.value| - 1]))
  {
    match HeadingCapture(StripFrontmatter(c))
    case None => None
    case Some(cap) => Some(TrimLine(cap))
  }

  /** `trim` on a one-line text. */
  function TrimLine(cap: string): (r: string)
    requires '\n' !in cap && '\r' !in cap
    ensures r == Trim(cap)
    ensures '\n' !in r && '\r' !in r
    ensures r == [] || (!IsSpace(r[0]) && !IsSpace(r[|r| - 1]))
  {
    TrimOfOneLine(cap);
    Trim(cap)
  }

  /** Trimming a one-line text gives a one-line text without surrounding whitespace. */
  lemma TrimOfOneLine(cap: string)
    requires '\n' !in cap && '\r' !in cap
    ensures var r := Trim(cap);
            && '\n' !in r && '\r' !in r
            && (r == [] || (!IsSpace(r[0]) && !IsSpace(r[|r| - 1])))
  {
    TrimSpan(cap);
    var a := IndentLength(cap);
    NotInSlice(cap, '\n', a, a + |Trim(cap)|);
    NotInSlice(cap, '\r', a, a + |Trim(cap)|);
  }

  // ---------------------------------------------------------------------
  // Adding a title
  // ---------------------------------------------------------------------

  /** The value the inserted title line carries: the title in double quotes. */
  function Quoted(t: string): string {
    "\"" + t + "\""
  }

  /** The inserted line, `title: "<t>"`. */
  function TitleLine(t: string): string {
    "title: " + Quoted(t)
  }

  /** `addFrontmatterTitle(content, title)`: the title line becomes the first
      line of an existing block (the opening delimiter is rewritten as
      `---` and a line feed), or a block holding only the title line and
      an empty line are put before the page. The title is inserted as it is. */
  function AddFrontmatterTitle(c: string, t: string): (r: string)
    ensures StartsWith(r, "---\n" + TitleLine(t) + "\n")
    ensures OpeningMarker(c).None? ==> EndsWith(r, "---\n\n" + c)
    ensures OpeningMarker(c).Some? ==> EndsWith(r, c[OpeningMarker(c).value..])
    ensures |r| == |c| + |TitleLine(t)| + (if OpeningMarker(c).None? then 10 else 5 - OpeningMarker(c).value)
  {
    match OpeningMarker(c)
    case Some(m) => "---\n" + TitleLine(t) + "\n" + c[m..]
    case None => "---\n" + TitleLine(t) + "\n---\n\n" + c
  }

  /** The replacement patterns of `String.prototype.replace` with a string
      replacement, for a pattern without capture groups matched at the start
      of the text: `$$` is a dollar sign, `$&` the matched text, `` $` `` the
      text before the match (empty here), `$'` the text after it; any other
      `$` stands for itself. */
  function ExpandReplacement(tpl: string, matched: string, after: string): string
    decreases |tpl|
  {
    if |tpl| == 0 then ""
    else if tpl[0] == '$' && |tpl| >= 2 && tpl[1] == '$' then "$" + ExpandReplacement(tpl[2..], matched, after)
    else if tpl[0] == '$' && |tpl| >= 2 && tpl[1] == '&' then matched + ExpandReplacement(tpl[2..], matched, after)
    else if tpl[0] == '$' && |tpl| >= 2 && tpl[1] == '`' then ExpandReplacement(tpl[2..], matched, after)
    else if tpl[0] == '$' && |tpl| >= 2 && tpl[1] == '\'' then after + ExpandReplacement(tpl[2..], matched, after)
    else [tpl[0]] + ExpandReplacement(tpl[1..], matched, after)
  }

  /** `addFrontmatterTitle` as the script writes it: in an existing block the
      title line goes through `content.replace(/^---\r?\n/, ...)`, whose
      replacement string is expanded. */
  function AddFrontmatterTitleAsWritten(c: string, t: string): (r: string)
    ensures StartsWith(r, "---\ntitle: \"")
    ensures OpeningMarker(c).None? ==> r == AddFrontmatterTitle(c, t)
    ensures OpeningMarker(c).Some? ==> EndsWith(r, c[OpeningMarker(c).value..])
  {
    match OpeningMarker(c)
    case Some(m) =>
      var pre := "---\ntitle: \"";
      assert "---\n" + TitleLine(t) + "\n" == pre + (t + "\"\n");
      ExpandLiteralPrefix(pre, t + "\"\n", c[..m], c[m..]);
      ExpandReplacement("---\n" + TitleLine(t) + "\n", c[..m], c[m..]) + c[m..]
    case None => "---\n" + TitleLine(t) + "\n---\n\n" + c
  }

  /** Text without a dollar sign before the rest is copied as it is. */
  lemma {:induction false} ExpandLiteralPrefix(a: string, rest: string, matched: string, after: string)
    requires '$' !in a
    ensures ExpandReplacement(a + rest, matched, after) == a + ExpandReplacement(rest, matched, after)
    decreases |a|
  {
    if |a| > 0 {
      var s := a + rest;
      assert s[0] == a[0] && a[0] != '$';
      assert s[1..] == a[1..] + rest;
      assert '$' !in a[1..];
      ExpandLiteralPrefix(a[1..], rest, matched, after);
      assert ExpandReplacement(s, matched, after) == [a[0]] + ExpandReplacement(s[1..], matched, after);
      assert a == [a[0]] + a[1..];
    } else {
      assert a + rest == rest;
    }
  }

  /** Without a dollar sign in the title the script's replacement inserts the title as it is. */
  lemma AsWrittenWithoutDollar(c: string, t: string)
    requires '$' !in t
    ensures AddFrontmatterTitleAsWritten(c, t) == AddFrontmatterTitle(c, t)
  {
    match OpeningMarker(c)
    case None =>
    case Some(m) =>
      var tpl := "---\n" + TitleLine(t) + "\n";
      assert '$' !in tpl;
      assert tpl + [] == tpl;
      ExpandLiteralPrefix(tpl, [], c[..m], c[m..]);
  }

  /** A doubled dollar sign in a title added to an existing block comes out as
      a single one: the written title differs from the one extracted. */
  lemma DoubledDollarCollapses(c: string, a: string, b: string)
    requires OpeningMarker(c).Some?
    requires '$' !in a && '$' !in b
    ensures AddFrontmatterTitleAsWritten(c, a + "$$" + b) == AddFrontmatterTitle(c, a + "$" + b)
    ensures AddFrontmatterTitleAsWritten(c, a + "$$" + b) != AddFrontmatterTitle(c, a + "$$" + b)
  {
    var m := OpeningMarker(c).value;
    var pre := "---\ntitle: \"" + a;
    var post := b + "\"\n";
    assert "---\n" + TitleLine(a + "$$" + b) + "\n" == pre + ("$$" + post);
    assert "---\n" + TitleLine(a + "$" + b) + "\n" == pre + ("$" + post);
    assert '$' !in pre && '$' !in post;
    ExpandLiteralPrefix(pre, "$$" + post, c[..m], c[m..]);
    assert ("$$" + post)[2..] == post;
    assert post + [] == post;
    ExpandLiteralPrefix(post, [], c[..m], c[m..]);
  }

  /** `$'` in a title added to an existing block is replaced by the whole
      rest of the page after the opening delimiter: the page's lines are
      written a second time, inside the title line. */
  lemma RestOfPageInserted(c: string, a: string, b: string)
    requires OpeningMarker(c).Some?
    requires '$' !in a && '$' !in b
    ensures var m := OpeningMarker(c).value;
            AddFrontmatterTitleAsWritten(c, a + "$'" + b) == AddFrontmatterTitle(c, a + c[m..] + b)
  {
    var m := OpeningMarker(c).value;
    var rest := c[m..];
    var pre := "---\ntitle: \"" + a;
    var post := b + "\"\n";
    TitleTemplateSplit(a, "$'", b);
    TitleTemplateSplit(a, rest, b);
    AsWrittenInBlock(c, a + "$'" + b);
    ExpandRestQuote(pre, post, c[..m], rest);
    assert pre + rest + post == pre + (rest + post);
  }

  /** The template of the title line around a middle part `x`. */
  lemma TitleTemplateSplit(a: string, x: string, b: string)
    ensures "---\n" + TitleLine(a + x + b) + "\n" == ("---\ntitle: \"" + a) + (x + (b + "\"\n"))
  {
  }

  /** In an existing block the script's result is the expanded template before the rest of the page. */
  lemma AsWrittenInBlock(c: string, t: string)
    requires OpeningMarker(c).Some?
    ensures var m := OpeningMarker(c).value;
            AddFrontmatterTitleAsWritten(c, t)
            == ExpandReplacement("---\n" + TitleLine(t) + "\n", c[..m], c[m..]) + c[m..]
  {
  }

  /** `$'` between two texts without a dollar sign expands to the text after the match. */
  lemma ExpandRestQuote(pre: string, post: string, matched: string, after: string)
    requires '$' !in pre && '$' !in post
    ensures ExpandReplacement(pre + ("$'" + post), matched, after) == pre + after + post
  {
    ExpandLiteralPrefix(pre, "$'" + post, matched, after);
    assert ("$'" + post)[2..] == post;
    assert post + [] == post;
    ExpandLiteralPrefix(post, [], matched, after);
  }

  // ---------------------------------------------------------------------
  // Adding, then parsing
  // ---------------------------------------------------------------------

  function Shift(o: Option<nat>, d: nat): Option<nat> {
    match o
    case None => None
    case Some(p) => Some(p + d)
  }

  /** The search skips a stretch without closings. */
  lemma {:induction false} FirstCloseSkip(c: string, from: nat, to: nat, pats: seq<string>)
    requires from <= to <= |c|
    requires forall p :: from <= p < to ==> !ClosesAt(c, p, pats)
    ensures FirstClose(c, from, pats) == FirstClose(c, to, pats)
    decreases |c| - from
  {
    if from < to {
      FirstCloseSkip(c, from + 1, to, pats);
    }
  }

  /** Searching past a prefix is searching the rest: both searches find the
      least closing, and the closings past the prefix are those of the rest. */
  lemma FirstCloseSuffix(pre: string, s: string, k: nat, pats: seq<string>)
    requires k <= |s|
    ensures FirstClose(pre + s, |pre| + k, pats) == Shift(FirstClose(s, k, pats), |pre|)
  {
    match FirstClose(s, k, pats)
    case None => FirstCloseSuffixNone(pre, s, k, pats);
    case Some(q) => FirstCloseSuffixSome(pre, s, k, pats, q);
  }

  lemma FirstCloseSuffixSome(pre: string, s: string, k: nat, pats: seq<string>, q: nat)
    requires k <= |s| && FirstClose(s, k, pats) == Some(q)
    ensures FirstClose(pre + s, |pre| + k, pats) == Some(|pre| + q)
  {
    ClosesAtSuffix(pre, s, q, pats);
    var a := FirstClose(pre + s, |pre| + k, pats).value;
    ClosesAtSuffix(pre, s, a - |pre|, pats);
  }

  lemma FirstCloseSuffixNone(pre: string, s: string, k: nat, pats: seq<string>)
    requires k <= |s| && FirstClose(s, k, pats).None?
    ensures FirstClose(pre + s, |pre| + k, pats).None?
  {
    var a := FirstClose(pre + s, |pre| + k, pats);
    if a.Some? {
      ClosesAtSuffix(pre, s, a.value - |pre|, pats);
      assert false;
    }
  }

  lemma ClosesAtSuffix(pre: string, s: string, k: nat, pats: seq<string>)
    requires k <= |s|
    ensures ClosesAt(pre + s, |pre| + k, pats) == ClosesAt(s, k, pats)
  {
    assert (pre + s)[|pre| + k..] == s[k..];
  }

  /** No closing of the block starts inside the title line. */
  lemma NoCloseInTitleLine(r: string, lo: nat, t: string)
    requires '\n' !in t
    requires lo + |TitleLine(t)| <= |r| && r[lo..lo + |TitleLine(t)|] == TitleLine(t)
    ensures forall p :: lo <= p < lo + |TitleLine(t)| ==> !ClosesAt(r, p, ParseClosers)
  {
    var line := TitleLine(t);
    forall p | lo <= p < lo + |line|
      ensures !ClosesAt(r, p, ParseClosers)
    {
      assert r[p] == line[p - lo];
      assert '\n' !in line;
      assert ParseClosers[0][0] == '\r' && ParseClosers[0][1] == '\n' && ParseClosers[1][0] == '\n';
      if p + 1 < lo + |line| {
        assert r[p + 1] == line[p + 1 - lo];
      } else {
        assert r[p] == '"';
      }
      assert !OccursAt(r, p, ParseClosers[0]) && !OccursAt(r, p, ParseClosers[1]);
    }
  }

  /** Whitespace before a trimmed text is what `trim` removes. */
  lemma TrimPadded(w: string, x: string)
    requires AllSpace(w) && |x| > 0 && !IsSpace(x[0]) && !IsSpace(x[|x| - 1])
    ensures Trim(w + x) == x
  {
    TrimStartOfPadded(w, x);
    TrimOfTrimmed(x);
  }

  /** The title line defines the key `title` with the quoted title as its value. */
  lemma TitleLineField(t: string)
    ensures FieldOf(TitleLine(t)) == Some(("title", Quoted(t)))
  {
    var line := TitleLine(t);
    assert line[..5] == "title" && line[5] == ':';
    assert IndexOf(line, ':') == Some(5);
    TrimOfTrimmed("title");
    assert line[6..] == " " + Quoted(t);
    TrimPadded(" ", Quoted(t));
  }

  /** The fields of the title line on its own. */
  lemma TitleLineFields(t: string)
    requires '\n' !in t
    ensures ParseFields(Lines(TitleLine(t))) == map["title" := Quoted(t)]
  {
    TitleLineOneLine(t);
    SplitWithoutSeparator(TitleLine(t), '\n');
    TitleLineField(t);
    FieldsByOne(TitleLine(t), FieldOf);
  }

  /** The fields of a single line. */
  lemma FieldsByOne(line: string, field: string -> Option<(string, string)>)
    ensures FieldsBy([line], field) == if field(line).Some? then map[field(line).value.0 := field(line).value.1] else map[]
  {
    assert [line][..0] == [];
  }

  /** A page without frontmatter gets a block that parses to the title alone. */
  lemma ParseAfterAddFresh(c: string, t: string)
    requires OpeningMarker(c).None?
    requires '\n' !in t
    ensures ParseFrontmatter(AddFrontmatterTitle(c, t)) == Some(map["title" := Quoted(t)])
    ensures HasFrontmatterTitle(AddFrontmatterTitle(c, t))
  {
    var r := AddFrontmatterTitle(c, t);
    var line := TitleLine(t);
    var e := 4 + |line|;
    assert r == "---\n" + line + "\n" + ("---\n\n" + c);
    AddedPrefixSlice(line, "---\n\n" + c);
    NoCloseInTitleLine(r, 4, t);
    FirstCloseSkip(r, 4, e, ParseClosers);
    assert OccursAt(r, e, ParseClosers[1]);
    assert r[4..e] == line;
    TitleLineFields(t);
  }

  /** When the block's text starts right away with `---` (an empty block such
      as `---` on two consecutive lines, which is not read), the line feed
      after the inserted title line closes the block there: the page then
      holds the title alone and is titled, however it read before. */
  lemma AddBeforeDelimiterTitles(c: string, t: string)
    requires OpeningMarker(c).Some?
    requires '\n' !in t
    requires StartsWith(c[OpeningMarker(c).value..], "---")
    ensures ParseFrontmatter(AddFrontmatterTitle(c, t)) == Some(map["title" := Quoted(t)])
    ensures HasFrontmatterTitle(AddFrontmatterTitle(c, t))
  {
    var m := OpeningMarker(c).value;
    var x := c[m + 3..];
    assert c[m..] == "---" + x;
    assert AddFrontmatterTitle(c, t) == "---\n" + TitleLine(t) + "\n" + ("---" + x);
    TitleBeforeDelimiter(t, x);
  }

  /** The title line followed by a line feed and `---` is a closed block holding it alone. */
  lemma TitleBeforeDelimiter(t: string, x: string)
    requires '\n' !in t
    ensures ParseFrontmatter("---\n" + TitleLine(t) + "\n" + ("---" + x)) == Some(map["title" := Quoted(t)])
  {
    BlockBeforeDelimiter(t, x);
    TitleLineFields(t);
  }

  lemma BlockBeforeDelimiter(t: string, x: string)
    requires '\n' !in t
    ensures FrontmatterBlock("---\n" + TitleLine(t) + "\n" + ("---" + x)) == Some(TitleLine(t))
  {
    var line := TitleLine(t);
    var r := "---\n" + line + "\n" + ("---" + x);
    var e := 4 + |line|;
    assert r == "---\n" + line + "\n---" + x;
    AddedPrefixSlice(line, "---" + x);
    NoCloseInTitleLine(r, 4, t);
    FirstCloseSkip(r, 4, e, ParseClosers);
    assert OccursAt(r, e, ParseClosers[1]);
  }

  /** The line feed after the inserted line closes the block only before `---`. */
  lemma NoCloseBeforeRest(pre: string, rest: string)
    requires |pre| > 0 && pre[|pre| - 1] == '\n'
    requires !StartsWith(rest, "---")
    ensures !ClosesAt(pre + rest, |pre| - 1, ParseClosers)
  {
    var s := pre + rest;
    var p := |pre| - 1;
    assert s[p] == '\n' && ParseClosers[0][0] == '\r';
    if OccursAt(s, p, ParseClosers[1]) {
      assert forall j :: 0 <= j < 3 ==> rest[j] == s[p + 1 + j] == ParseClosers[1][1 + j];
      assert false;
    }
  }

  /** In an existing block the title becomes the first field; the block's own
      fields come after it, so a `title` of the block wins over it. This
      holds unless the block's text starts right away with `---`, in which
      case the inserted line is the whole block. */
  lemma ParseAfterAddIntoBlock(c: string, t: string)
    requires OpeningMarker(c).Some?
    requires '\n' !in t
    requires !StartsWith(c[OpeningMarker(c).value..], "---")
    ensures ParseFrontmatter(AddFrontmatterTitle(c, t))
            == match ParseFrontmatter(c)
               case None => None
               case Some(fm) => Some(map["title" := Quoted(t)] + fm)
  {
    var m := OpeningMarker(c).value;
    var rest := c[m..];
    CloseInOriginal(c);
    CloseInAdded(c, t);
    match FirstClose(rest, 0, ParseClosers)
    case None =>
    case Some(q) =>
      BlockAfterAdd(c, t, q);
      FieldsAfterAdd(t, rest[..q]);
  }

  lemma BlockAfterAdd(c: string, t: string, q: nat)
    requires OpeningMarker(c).Some?
    requires '\n' !in t
    requires !StartsWith(c[OpeningMarker(c).value..], "---")
    requires FirstClose(c[OpeningMarker(c).value..], 0, ParseClosers) == Some(q)
    ensures var rest := c[OpeningMarker(c).value..];
            && FrontmatterBlock(c) == Some(rest[..q])
            && FrontmatterBlock(AddFrontmatterTitle(c, t)) == Some(TitleLine(t) + "\n" + rest[..q])
  {
    BlockOfOriginal(c, q);
    BlockOfAdded(c, t, q);
  }

  lemma BlockOfOriginal(c: string, q: nat)
    requires OpeningMarker(c).Some?
    requires FirstClose(c[OpeningMarker(c).value..], 0, ParseClosers) == Some(q)
    ensures FrontmatterBlock(c) == Some(c[OpeningMarker(c).value..][..q])
  {
    var m := OpeningMarker(c).value;
    CloseInOriginal(c);
    SliceOfSuffix(c, m, q);
  }

  lemma BlockOfAdded(c: string, t: string, q: nat)
    requires OpeningMarker(c).Some?
    requires '\n' !in t
    requires !StartsWith(c[OpeningMarker(c).value..], "---")
    requires FirstClose(c[OpeningMarker(c).value..], 0, ParseClosers) == Some(q)
    ensures FrontmatterBlock(AddFrontmatterTitle(c, t))
            == Some(TitleLine(t) + "\n" + c[OpeningMarker(c).value..][..q])
  {
    var rest := c[OpeningMarker(c).value..];
    var line := TitleLine(t);
    var r := AddFrontmatterTitle(c, t);
    CloseInAdded(c, t);
    assert r == "---\n" + line + "\n" + rest;
    AddedBlockSlice(line, rest, q);
  }

  lemma AddedBlockSlice(line: string, rest: string, q: nat)
    requires q <= |rest|
    ensures ("---\n" + line + "\n" + rest)[4..5 + |line| + q] == line + "\n" + rest[..q]
  {
  }

  /** The title line read before the block's lines. */
  lemma FieldsAfterAdd(t: string, block: string)
    requires '\n' !in t
    ensures ParseFields(Lines(TitleLine(t) + "\n" + block))
            == map["title" := Quoted(t)] + ParseFields(Lines(block))
  {
    var line := TitleLine(t);
    LinesAtBreak(line, block);
    ParseFieldsAppend([line], Lines(block));
    SplitWithoutSeparator(line, '\n');
    TitleLineFields(t);
  }

  /** The block's closing is searched for in the text after the opening. */
  lemma CloseInOriginal(c: string)
    requires OpeningMarker(c).Some?
    ensures var m := OpeningMarker(c).value;
            FirstClose(c, m, ParseClosers) == Shift(FirstClose(c[m..], 0, ParseClosers), m)
  {
    var m := OpeningMarker(c).value;
    assert c == c[..m] + c[m..];
    FirstCloseSuffix(c[..m], c[m..], 0, ParseClosers);
  }

  /** Where the block closes after the title is added: at the same place of
      the original text, which has moved by the inserted line. */
  lemma CloseInAdded(c: string, t: string)
    requires OpeningMarker(c).Some?
    requires '\n' !in t
    requires !StartsWith(c[OpeningMarker(c).value..], "---")
    ensures var r := AddFrontmatterTitle(c, t);
            && OpeningMarker(r) == Some(4)
            && FirstClose(r, 4, ParseClosers)
               == Shift(FirstClose(c[OpeningMarker(c).value..], 0, ParseClosers), 5 + |TitleLine(t)|)
  {
    var rest := c[OpeningMarker(c).value..];
    var line := TitleLine(t);
    var pre := "---\n" + line + "\n";
    var r := AddFrontmatterTitle(c, t);
    assert r == pre + rest;
    AddedPrefixSlice(line, rest);
    NoCloseInTitleLine(r, 4, t);
    NoCloseBeforeRest(pre, rest);
    FirstCloseSkip(r, 4, |pre|, ParseClosers);
    FirstCloseSuffix(pre, rest, 0, ParseClosers);
  }

  lemma AddedPrefixSlice(line: string, rest: string)
    ensures var r := "---\n" + line + "\n" + rest;
            && OpeningMarker(r) == Some(4)
            && r[4..4 + |line|] == line
  {
    var r := "---\n" + line + "\n" + rest;
    assert r[..4] == "---\n";
  }

  /** A block that is opened but never closed is not read: the title added to
      it is not seen, so the page counts as untitled again on the next run. */
  lemma UnclosedBlockStaysUntitled(c: string, t: string)
    requires OpeningMarker(c).Some? && FrontmatterBlock(c).None?
    requires '\n' !in t
    requires !StartsWith(c[OpeningMarker(c).value..], "---")
    ensures !HasFrontmatterTitle(AddFrontmatterTitle(c, t))
  {
    ParseAfterAddIntoBlock(c, t);
  }

  /** An empty `title:` already in the block shadows the added title: the page
      still counts as untitled, unless it is a home page. */
  lemma EmptyTitleShadowsAdded(c: string, t: string)
    requires OpeningMarker(c).Some?
    requires '\n' !in t
    requires !StartsWith(c[OpeningMarker(c).value..], "---")
    requires ParseFrontmatter(c).Some? && "title" in ParseFrontmatter(c).value
    requires ParseFrontmatter(c).value["title"] == ""
    ensures HasFrontmatterTitle(AddFrontmatterTitle(c, t)) == HasFrontmatterTitle(c)
  {
    ParseAfterAddIntoBlock(c, t);
    var fm := ParseFrontmatter(c).value;
    var added := map["title" := Quoted(t)] + fm;
    assert ParseFrontmatter(AddFrontmatterTitle(c, t)) == Some(added);
    assert added["title"] == "";
    assert "layout" in added <==> "layout" in fm;
    assert "layout" in fm ==> added["layout"] == fm["layout"];
  }

  /** Otherwise the added title is seen: after the fix the page has a title. */
  lemma TitleAddedIsSeen(c: string, t: string)
    requires OpeningMarker(c).Some?
    requires '\n' !in t
    requires !StartsWith(c[OpeningMarker(c).value..], "---")
    requires ParseFrontmatter(c).Some? && "title" !in ParseFrontmatter(c).value
    ensures HasFrontmatterTitle(AddFrontmatterTitle(c, t))
  {
    ParseAfterAddIntoBlock(c, t);
  }

  // ---------------------------------------------------------------------
  // Writing a block, then reading it
  // ---------------------------------------------------------------------

  /** A page whose frontmatter block holds `lines`, closed by `---` and followed by `rest`. */
  function PageWithBlock(lines: seq<string>, rest: string): string {
    "---\n" + Join(lines, '\n') + "\n---" + rest
  }

  /** Lines a block can hold and be read back from: one line each, without
      carriage returns, and none after the first starting with `---`, which
      would close the block there. */
  predicate BlockLines(lines: seq<string>) {
    && |lines| >= 1
    && (forall i :: 0 <= i < |lines| ==> '\n' !in lines[i] && '\r' !in lines[i])
    && (forall i :: 1 <= i < |lines| ==> !StartsWith(lines[i], "---"))
  }

  /** The block written into a page is the block read from it. */
  lemma ParseBuiltBlock(lines: seq<string>, rest: string)
    requires BlockLines(lines)
    ensures ParseFrontmatter(PageWithBlock(lines, rest)) == Some(ParseFields(lines))
  {
    var b := Join(lines, '\n');
    var c := PageWithBlock(lines, rest);
    var e := 4 + |b|;
    BuiltPageSlices(b, rest);
    forall p | 4 <= p < e
      ensures !ClosesAt(c, p, ParseClosers)
    {
      NoCloseInBuiltBlock(lines, rest, p);
    }
    FirstCloseSkip(c, 4, e, ParseClosers);
    assert FirstClose(c, e, ParseClosers) == Some(e);
    SplitJoin(lines, '\n');
  }

  lemma BuiltPageSlices(b: string, rest: string)
    ensures var c := "---\n" + b + "\n---" + rest;
            && OpeningMarker(c) == Some(4) && c[4..4 + |b|] == b
            && ClosesAt(c, 4 + |b|, ParseClosers)
  {
    var c := "---\n" + b + "\n---" + rest;
    assert c[..4] == "---\n";
    assert OccursAt(c, 4 + |b|, ParseClosers[1]);
  }

  /** No closing starts inside the written block. */
  lemma NoCloseInBuiltBlock(lines: seq<string>, rest: string, p: nat)
    requires BlockLines(lines)
    requires 4 <= p < 4 + |Join(lines, '\n')|
    ensures !ClosesAt(PageWithBlock(lines, rest), p, ParseClosers)
  {
    var b := Join(lines, '\n');
    var c := PageWithBlock(lines, rest);
    var x := p - 4;
    BuiltPageChar(b, rest, x);
    JoinWithout(lines, '\r');
    assert b[x] in b;
    if c[p] == '\n' {
      var i := JoinBreak(lines, x);
      BuiltPageLine(b, rest, x + 1, lines[i]);
      NoCloseBeforeLine(c, p, lines[i]);
    }
    NoCloseAtChar(c, p);
  }

  /** A line feed followed by a whole line that does not start with `---` is no closing. */
  lemma NoCloseBeforeLine(c: string, p: nat, line: string)
    requires OccursAt(c, p + 1, line) && p + 1 + |line| < |c| && c[p + 1 + |line|] == '\n'
    requires !StartsWith(line, "---")
    ensures !OccursAt(c, p, ParseClosers[1])
  {
    if OccursAt(c, p, ParseClosers[1]) {
      CloseBeforeLine(c, p, line);
      assert false;
    }
  }

  /** A closing right before a whole line means the line starts with `---`. */
  lemma CloseBeforeLine(c: string, p: nat, line: string)
    requires OccursAt(c, p + 1, line) && p + 1 + |line| < |c| && c[p + 1 + |line|] == '\n'
    requires OccursAt(c, p, ParseClosers[1])
    ensures StartsWith(line, "---")
  {
    assert ParseClosers[1][1] == '-' && ParseClosers[1][2] == '-' && ParseClosers[1][3] == '-';
    assert c[p + 1] == '-' && c[p + 2] == '-' && c[p + 3] == '-';
    assert |line| >= 3;
    assert line[0] == c[p + 1] && line[1] == c[p + 2] && line[2] == c[p + 3];
    assert line[..3] == "---";
  }

  /** A closing starts with a line feed or a carriage return. */
  lemma NoCloseAtChar(c: string, p: nat)
    requires p < |c| && c[p] != '\r'
    requires c[p] == '\n' ==> !OccursAt(c, p, ParseClosers[1])
    ensures !ClosesAt(c, p, ParseClosers)
  {
    assert ParseClosers[0][0] == '\r' && ParseClosers[1][0] == '\n';
    assert !OccursAt(c, p, ParseClosers[0]);
  }

  lemma BuiltPageChar(b: string, rest: string, x: nat)
    requires x < |b|
    ensures ("---\n" + b + "\n---" + rest)[4 + x] == b[x]
  {
  }

  /** A whole line of the block is a whole line of the page. */
  lemma BuiltPageLine(b: string, rest: string, q: nat, line: string)
    requires LineAt(b, q, line)
    ensures var c := "---\n" + b + "\n---" + rest;
            && OccursAt(c, 4 + q, line) && 4 + q + |line| < |c| && c[4 + q + |line|] == '\n'
  {
    var c := "---\n" + b + "\n---" + rest;
    assert c == "---\n" + (b + ("\n---" + rest));
    LineAtShift("---\n", b + ("\n---" + rest), q, line);
    if q + |line| == |b| {
      assert c[4 + |b|] == '\n';
    } else {
      assert c[4 + q + |line|] == b[q + |line|];
    }
  }

  /** A block whose last `title` line has a non-empty value titles the page. */
  lemma TitleLineTitles(lines: seq<string>, rest: string, i: nat)
    requires BlockLines(lines) && i < |lines|
    requires FieldOf(lines[i]).Some? && FieldOf(lines[i]).value.0 == "title"
    requires FieldOf(lines[i]).value.1 != ""
    requires forall j :: i < j < |lines| ==> !DefinesKey(lines[j], "title")
    ensures HasFrontmatterTitle(PageWithBlock(lines, rest))
  {
    ParseBuiltBlock(lines, rest);
    ParseFieldsLastWins(lines, i);
  }

  /** A block whose last `layout` line says `home` titles the page, whatever its title. */
  lemma HomeLayoutTitles(lines: seq<string>, rest: string, i: nat)
    requires BlockLines(lines) && i < |lines|
    requires FieldOf(lines[i]) == Some(("layout", "home"))
    requires forall j :: i < j < |lines| ==> !DefinesKey(lines[j], "layout")
    ensures HasFrontmatterTitle(PageWithBlock(lines, rest))
  {
    ParseBuiltBlock(lines, rest);
    ParseFieldsLastWins(lines, i);
  }

  /** A block with neither a `title` nor a `layout` line leaves the page untitled. */
  lemma NoTitleLineUntitled(lines: seq<string>, rest: string)
    requires BlockLines(lines)
    requires forall j :: 0 <= j < |lines| ==> !DefinesKey(lines[j], "title") && !DefinesKey(lines[j], "layout")
    ensures !HasFrontmatterTitle(PageWithBlock(lines, rest))
  {
    ParseBuiltBlock(lines, rest);
    ParseFieldsKeys(lines, "title");
    ParseFieldsKeys(lines, "layout");
  }

  // ---------------------------------------------------------------------
  // The title of a page that starts with a heading
  // ---------------------------------------------------------------------

  /** A page that opens with `#` and whitespace takes its title from the text
      after them, up to the end of that line, trimmed; the whitespace may run
      over line breaks, as `\s` takes them. */
  lemma HeadingAtStart(gap: string, t: string, rest: string)
    requires |gap| > 0 && AllSpace(gap)
    requires |t| > 0 && !IsSpace(t[0]) && '\n' !in t && '\r' !in t
    requires rest == [] || IsLineTerminator(rest[0])
    ensures ExtractTitleFromHeading("#" + gap + t + rest) == Some(Trim(t))
  {
    var s := "#" + gap + t + rest;
    var m := 1 + |gap|;
    assert s[0] == '#' && s[1] == gap[0];
    assert s[1..m] == gap && s[m..] == t + rest && s[m] == t[0];
    assert StripFrontmatter(s) == s;
    HeadingGapEnd(s, m);
    assert HeadingCaptureStart(s, 0) == Some(m);
    assert FirstHeadingLine(s, 0) == Some(0);
    HeadingLineEnd(s, m, t, rest);
  }

  /** The whitespace after the `#` runs up to the first other character. */
  lemma HeadingGapEnd(s: string, m: nat)
    requires 2 <= m < |s| && AllSpace(s[1..m]) && !IsSpace(s[m])
    ensures SpaceRunEnd(s, 1) == m
  {
    assert forall k :: 1 <= k < m ==> s[1..m][k - 1] == s[k];
  }

  lemma HeadingLineEnd(s: string, m: nat, t: string, rest: string)
    requires m + |t| + |rest| == |s| && s[m..] == t + rest
    requires '\n' !in t && '\r' !in t
    requires rest == [] || IsLineTerminator(rest[0])
    ensures LineEnd(s, m) == m + |t| && s[m..m + |t|] == t
  {
    assert forall k :: m <= k < m + |t| ==> s[k] == t[k - m];
    if rest != [] {
      assert s[m + |t|] == rest[0];
    }
    assert s[m..m + |t|] == (t + rest)[..|t|];
  }

  /** Blank lines before the heading are passed over: the first match is at
      the `#`, and its capture runs to the end of the heading's line. */
  lemma HeadingAfterBlank(blank: string, gap: string, t: string, tail: string)
    requires forall k :: 0 <= k < |blank| ==> IsLineTerminator(blank[k])
    requires |gap| > 0 && AllSpace(gap)
    requires |t| > 0 && !IsSpace(t[0]) && '\n' !in t && '\r' !in t
    requires tail == [] || IsLineTerminator(tail[0])
    ensures HeadingCapture(blank + "#" + gap + t + tail) == Some(t)
  {
    var s := blank + "#" + gap + t + tail;
    var q := |blank|;
    var m := q + 1 + |gap|;
    assert s[q] == '#' && s[q + 1] == gap[0] && s[m] == t[0];
    assert q > 0 ==> s[q - 1] == blank[q - 1];
    assert forall k :: q + 1 <= k < m ==> s[k] == gap[k - q - 1];
    assert SpaceRunEnd(s, q + 1) == m;
    assert HeadingCaptureStart(s, q) == Some(m);
    forall p | 0 <= p < q
      ensures !HasHeadingMatch(s, p)
    {
      assert s[p] == blank[p];
    }
    assert HeadingMatchAt(s, q, m) && HasHeadingMatch(s, q);
    var r := FirstHeadingLine(s, 0);
    assert r.Some? && r.value <= q;
    assert r.value == q;
    assert s[m..] == t + tail;
    HeadingLineEnd(s, m, t, tail);
  }

  /** A closing the heading extraction strips through starts with one the
      parser looks for: `\r?\n---\r?\n` begins with `\r?\n---`. */
  lemma StripCloseIsParseClose(c: string, p: nat)
    ensures ClosesAt(c, p, StripClosers) ==> ClosesAt(c, p, ParseClosers)
  {
    if ClosesAt(c, p, StripClosers) {
      var i :| 0 <= i < |StripClosers| && OccursAt(c, p, StripClosers[i]);
      var j := if i < 2 then 0 else 1;
      assert forall k :: 0 <= k < |ParseClosers[j]| ==> ParseClosers[j][k] == StripClosers[i][k];
      assert OccursAt(c, p, ParseClosers[j]);
    }
  }

  /** A closing line ended by a line feed is five characters long. */
  lemma ClosingLengthPlain(c: string, p: nat)
    requires OccursAt(c, p, "\n---\n")
    ensures ClosesAt(c, p, StripClosers) && ClosingLength(c, p) == 5
  {
    assert OccursAt(c, p, StripClosers[3]);
    assert c[p + 0] == "\n---\n"[0] && c[p + 4] == "\n---\n"[4];
    assert StripClosers[0][0] == '\r' && StripClosers[1][0] == '\r' && StripClosers[2][4] == '\r';
  }

  /** Stripping removes exactly the written block and its closing line. */
  lemma StripBuiltBlock(lines: seq<string>, rest: string)
    requires BlockLines(lines)
    ensures StripFrontmatter(PageWithBlock(lines, "\n" + rest)) == rest
  {
    var b := Join(lines, '\n');
    var c := PageWithBlock(lines, "\n" + rest);
    var e := 4 + |b|;
    BuiltPageSlices(b, "\n" + rest);
    forall p | 4 <= p < e
      ensures !ClosesAt(c, p, StripClosers)
    {
      NoCloseInBuiltBlock(lines, "\n" + rest, p);
      StripCloseIsParseClose(c, p);
    }
    FirstCloseSkip(c, 4, e, StripClosers);
    assert c == "---\n" + b + "\n---\n" + rest;
    assert forall k :: 0 <= k < 5 ==> c[e + k] == "\n---\n"[k];
    ClosingLengthPlain(c, e);
    assert FirstClose(c, e, StripClosers) == Some(e);
    assert c[e + 5..] == rest;
  }

  /** The title of a page with a written block is read from the text after
      the block's closing line, and from nothing else. */
  lemma TitleAfterBuiltBlock(lines: seq<string>, rest: string)
    requires BlockLines(lines)
    ensures var r := ExtractTitleFromHeading(PageWithBlock(lines, "\n" + rest));
            match HeadingCapture(rest)
            case None => r == None
            case Some(cap) => r == Some(Trim(cap))
  {
    StripBuiltBlock(lines, rest);
  }

  /** A page whose block is followed by blank lines and a level-one heading
      takes the heading's trimmed text as its title. */
  lemma HeadingAfterBuiltBlock(lines: seq<string>, blank: string, gap: string, t: string, tail: string)
    requires BlockLines(lines)
    requires forall k :: 0 <= k < |blank| ==> IsLineTerminator(blank[k])
    requires |gap| > 0 && AllSpace(gap)
    requires |t| > 0 && !IsSpace(t[0]) && '\n' !in t && '\r' !in t
    requires tail == [] || IsLineTerminator(tail[0])
    ensures ExtractTitleFromHeading(PageWithBlock(lines, "\n" + blank + "#" + gap + t + tail)) == Some(Trim(t))
  {
    var rest := blank + "#" + gap + t + tail;
    assert "\n" + blank + "#" + gap + t + tail == "\n" + rest;
    StripBuiltBlock(lines, rest);
    HeadingAfterBlank(blank, gap, t, tail);
  }

  /** A second-level heading is not a title. */
  lemma SubheadingIsNoTitle(t: string)
    requires '\n' !in t && '\r' !in t
    ensures ExtractTitleFromHeading("## " + t) == None
  {
    var s := "## " + t;
    assert StripFrontmatter(s) == s;
    forall q | 0 < q <= |s|
      ensures !IsLineStart(s, q)
    {
      if q > 3 {
        assert s[q - 1] == t[q - 4];
      }
    }
    forall m | 2 <= m < |s|
      ensures !HeadingMatchAt(s, 0, m)
    {
      assert s[1..m][0] == '#';
    }
  }

  /** A page with no line (after the frontmatter) starting with `#` and a
      whitespace character has no title to extract. */
  lemma NoHeadingLineNoTitle(c: string)
    requires var s := StripFrontmatter(c);
             forall q :: 0 <= q < |s| - 1 && IsLineStart(s, q) ==> !(s[q] == '#' && IsSpace(s[q + 1]))
    ensures ExtractTitleFromHeading(c) == None
  {
    var s := StripFrontmatter(c);
    forall q, m | 0 <= q && q + 2 <= m < |s|
      ensures !HeadingMatchAt(s, q, m)
    {
      assert s[q + 1..m][0] == s[q + 1];
    }
    assert FirstHeadingLine(s, 0).None?;
  }

  // ---------------------------------------------------------------------
  // The lines of a page after a title is added
  // ---------------------------------------------------------------------

  /** The opening delimiter is the first line of the page: `---`, or `---`
      and a carriage return. */
  lemma LinesAfterOpening(c: string)
    requires OpeningMarker(c).Some?
    ensures var m := OpeningMarker(c).value;
            && '\n' !in c[..m - 1] && c[..3] == "---" && m - 1 <= 4
            && Lines(c) == [c[..m - 1]] + Lines(c[m..])
  {
    var m := OpeningMarker(c).value;
    assert c == c[..m - 1] + "\n" + c[m..];
    LinesAtBreak(c[..m - 1], c[m..]);
  }

  /** The added lines come before the page's own lines: four lines (the new
      block and an empty line) before the whole page, or the title line in
      place of the opening line's carriage return, if any. */
  lemma LinesAfterAdd(c: string, t: string)
    requires '\n' !in t
    ensures OpeningMarker(c).None? ==>
              Lines(AddFrontmatterTitle(c, t)) == ["---", TitleLine(t), "---", ""] + Lines(c)
    ensures OpeningMarker(c).Some? ==>
              var m := OpeningMarker(c).value;
              Lines(AddFrontmatterTitle(c, t)) == ["---", TitleLine(t)] + Lines(c[m..])
  {
    match OpeningMarker(c)
    case None => LinesAfterAddFresh(c, t);
    case Some(m) => LinesAfterAddIntoBlock(c, t);
  }

  lemma LinesAfterAddFresh(c: string, t: string)
    requires '\n' !in t && OpeningMarker(c).None?
    ensures Lines(AddFrontmatterTitle(c, t)) == ["---", TitleLine(t), "---", ""] + Lines(c)
  {
    var line := TitleLine(t);
    TitleLineOneLine(t);
    assert AddFrontmatterTitle(c, t) == "---" + "\n" + (line + "\n" + ("---" + "\n" + ("" + "\n" + c)));
    LinesOfFour(line, c);
  }

  lemma TitleLineOneLine(t: string)
    requires '\n' !in t
    ensures '\n' !in TitleLine(t)
  {
  }

  /** The lines of the block put before a page without one. */
  lemma LinesOfFour(line: string, c: string)
    requires '\n' !in line
    ensures Lines("---" + "\n" + (line + "\n" + ("---" + "\n" + ("" + "\n" + c))))
            == ["---", line, "---", ""] + Lines(c)
  {
    var x3 := "" + "\n" + c;
    var x2 := "---" + "\n" + x3;
    var x1 := line + "\n" + x2;
    LinesAtBreak("", c);
    LinesAtBreak("---", x3);
    LinesAtBreak(line, x2);
    LinesAtBreak("---", x1);
  }

  lemma LinesAfterAddIntoBlock(c: string, t: string)
    requires '\n' !in t && OpeningMarker(c).Some?
    ensures Lines(AddFrontmatterTitle(c, t)) == ["---", TitleLine(t)] + Lines(c[OpeningMarker(c).value..])
  {
    var m := OpeningMarker(c).value;
    var line := TitleLine(t);
    var x1 := line + "\n" + c[m..];
    assert AddFrontmatterTitle(c, t) == "---" + "\n" + x1;
    LinesAtBreak(line, c[m..]);
    LinesAtBreak("---", x1);
  }

  /** A page starts with an opening delimiter exactly when its first line is
      `---` (or `---` and a carriage return) and a second line follows. */
  lemma OpeningMarkerByLines(c: string)
    ensures OpeningMarker(c).Some? <==>
              |Lines(c)| >= 2 && (Lines(c)[0] == "---" || Lines(c)[0] == "---\r")
  {
    if OpeningMarker(c).Some? {
      LinesAfterOpening(c);
      var m := OpeningMarker(c).value;
      assert c[..m - 1] == "---" || c[..m - 1] == "---\r";
    } else if |Lines(c)| >= 2 {
      var ls := Lines(c);
      assert c == ls[0] + "\n" + Join(ls[1..], '\n');
      assert c[..|ls[0]| + 1] == ls[0] + "\n";
    }
  }
}
