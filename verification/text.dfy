/**
 Character classes, trimming, prefix tests and separator splitting, as the
 fixer script uses them through JavaScript's `trimStart`, `trim`,
 `startsWith`, `endsWith`, `indexOf`, `split` and `join`.

 Whitespace is the ASCII part of JavaScript's white-space and line-terminator
 set: space, tab, line feed, carriage return, form feed and vertical tab.
 */
module Text {

  datatype Option<+T> = None | Some(value: T)

  /** One character of the `\s` class (and of what `trim` removes). */
  predicate IsSpace(c: char) {
    c == ' ' || c == '\t' || c == '\n' || c == '\r' || c == '\U{000C}' || c == '\U{000B}'
  }

  /** The characters a regular expression's `.` refuses and after which a multiline `^` matches. */
  predicate IsLineTerminator(c: char) {
    c == '\n' || c == '\r'
  }

  predicate AllSpace(s: string) {
    forall i :: 0 <= i < |s| ==> IsSpace(s[i])
  }

  predicate StartsWith(s: string, prefix: string) {
    |prefix| <= |s| && s[..|prefix|] == prefix
  }

  predicate EndsWith(s: string, suffix: string) {
    |suffix| <= |s| && s[|s| - |suffix|..] == suffix
  }

  /** `pat` occurs in `s` at position `p`: `s.startsWith(pat, p)`. */
  predicate OccursAt(s: string, p: int, pat: string) {
    0 <= p && p + |pat| <= |s| && forall j :: 0 <= j < |pat| ==> s[p + j] == pat[j]
  }

  /** An occurrence at `p` is a prefix of the text from `p` on. */
  lemma OccursAtIsPrefix(s: string, p: nat, pat: string)
    requires p <= |s|
    ensures OccursAt(s, p, pat) <==> StartsWith(s[p..], pat)
  {
    if OccursAt(s, p, pat) {
      assert s[p..][..|pat|] == pat;
    }
    if StartsWith(s[p..], pat) {
      assert forall j :: 0 <= j < |pat| ==> s[p + j] == s[p..][..|pat|][j];
    }
  }

  /** The slices of a text made of three parts. */
  lemma ThreeParts(a: string, b: string, c: string)
    ensures var s := a + b + c;
            && s[..|a|] == a && s[|a|..] == b + c && s[|a| + |b|..] == c
            && OccursAt(s, |a|, b)
  {
  }

  /** A slice of a suffix is a slice of the text. */
  lemma SliceOfSuffix(s: string, a: nat, n: nat)
    requires a + n <= |s|
    ensures s[a..][..n] == s[a..a + n]
  {
  }

  /** The end of the run of whitespace that starts at `i`. */
  function SpaceRunEnd(s: string, i: nat): (j: nat)
    requires i <= |s|
    ensures i <= j <= |s|
    ensures forall k :: i <= k < j ==> IsSpace(s[k])
    ensures j == |s| || !IsSpace(s[j])
    decreases |s| - i
  {
    if i < |s| && IsSpace(s[i]) then SpaceRunEnd(s, i + 1) else i
  }

  /** The start of the run of whitespace that ends at `j`. */
  function SpaceRunStart(s: string, j: nat): (i: nat)
    requires j <= |s|
    ensures i <= j
    ensures forall k :: i <= k < j ==> IsSpace(s[k])
    ensures i == 0 || !IsSpace(s[i - 1])
  {
    if j > 0 && IsSpace(s[j - 1]) then SpaceRunStart(s, j - 1) else j
  }

  /** The length of the leading whitespace of `s`. */
  function IndentLength(s: string): nat {
    SpaceRunEnd(s, 0)
  }

  /** `s.trimStart()`: the text after the leading whitespace. */
  function TrimStart(s: string): string {
    s[IndentLength(s)..]
  }

  /** The leading whitespace of `s`, the part `trimStart` removes. */
  function Indent(s: string): string {
    s[..IndentLength(s)]
  }

  /** The run of whitespace from `i` ends where a text not starting with
      whitespace begins, so it is the unique such split. */
  lemma {:induction false} SpaceRunEndOfPadded(w: string, t: string, i: nat)
    requires AllSpace(w) && i <= |w|
    requires t == [] || !IsSpace(t[0])
    ensures SpaceRunEnd(w + t, i) == |w|
    decreases |w| - i
  {
    if i < |w| {
      assert (w + t)[i] == w[i];
      SpaceRunEndOfPadded(w, t, i + 1);
    }
  }

  lemma IndentLengthOfPadded(w: string, t: string)
    requires AllSpace(w)
    requires t == [] || !IsSpace(t[0])
    ensures IndentLength(w + t) == |w|
  {
    SpaceRunEndOfPadded(w, t, 0);
  }

  lemma TrimStartOfPadded(w: string, t: string)
    requires AllSpace(w)
    requires t == [] || !IsSpace(t[0])
    ensures TrimStart(w + t) == t && Indent(w + t) == w
  {
    IndentLengthOfPadded(w, t);
    assert (w + t)[|w|..] == t;
    assert (w + t)[..|w|] == w;
  }

  lemma TrimStartIdempotent(s: string)
    ensures TrimStart(TrimStart(s)) == TrimStart(s)
  {
    var t := TrimStart(s);
    assert t == [] || !IsSpace(t[0]);
    assert IndentLength(t) == 0;
  }

  /** The text is its indentation, all whitespace, followed by the trimmed
      text, which does not start with whitespace. */
  lemma IndentThenRest(s: string)
    ensures s == Indent(s) + TrimStart(s)
    ensures AllSpace(Indent(s))
    ensures TrimStart(s) == [] || !IsSpace(TrimStart(s)[0])
  {
  }

  /** What `trimStart` removed, measured from the end. */
  lemma IndentByLength(s: string)
    ensures s[..|s| - |TrimStart(s)|] == Indent(s)
  {
  }

  /** The length of `s` without its trailing whitespace. */
  function ContentLength(s: string): nat {
    SpaceRunStart(s, |s|)
  }

  /** `s.trimEnd()`: the text before the trailing whitespace. */
  function TrimEnd(s: string): string {
    s[..ContentLength(s)]
  }

  /** `s.trim()`: the text between the leading and the trailing whitespace. */
  function Trim(s: string): string {
    TrimEnd(TrimStart(s))
  }

  /** `trim` leaves a text without surrounding whitespace that stands where
      `trimStart` starts, with only whitespace after it. */
  lemma TrimSpan(s: string)
    ensures var r := Trim(s);
            var a := IndentLength(s);
            && (r == [] || (!IsSpace(r[0]) && !IsSpace(r[|r| - 1])))
            && a + |r| <= |s| && r == s[a..a + |r|]
            && AllSpace(s[a + |r|..])
  {
    var t := TrimStart(s);
    var a := IndentLength(s);
    var r := Trim(s);
    assert r == t[..|r|];
    assert s[a + |r|..] == t[|r|..];
  }

  /** A text without surrounding whitespace trims to itself. */
  lemma TrimOfTrimmed(s: string)
    requires s == [] || (!IsSpace(s[0]) && !IsSpace(s[|s| - 1]))
    ensures Trim(s) == s
  {
    assert IndentLength(s) == 0;
    assert s[0..] == s;
    assert ContentLength(s) == |s|;
  }

  /** `trim` gives the empty text exactly for all-whitespace input. */
  lemma TrimEmptyIffAllSpace(s: string)
    ensures Trim(s) == [] <==> AllSpace(s)
  {
    TrimSpan(s);
    var a := IndentLength(s);
    if Trim(s) == [] {
      assert s == s[..a] + s[a..];
    } else {
      assert s[a] == Trim(s)[0];
    }
  }

  /** A character missing from a text is missing from each of its slices. */
  lemma NotInSlice(s: string, c: char, a: nat, b: nat)
    requires c !in s && a <= b <= |s|
    ensures c !in s[a..b]
  {
    assert forall k :: 0 <= k < b - a ==> s[a..b][k] == s[a + k];
  }

  /** `s.indexOf(c)`: the first position of `c`, if any. */
  function IndexOf(s: string, c: char): (r: Option<nat>)
    ensures r.None? <==> c !in s
    ensures r.Some? ==> r.value < |s| && s[r.value] == c && c !in s[..r.value]
  {
    if |s| == 0 then None
    else if s[0] == c then Some(0)
    else
      match IndexOf(s[1..], c)
      case None => None
      case Some(i) => assert s[..i + 1] == [s[0]] + s[1..][..i]; Some(i + 1)
  }

  /** `ls.join(sep)`. */
  function Join(ls: seq<string>, sep: char): string {
    if |ls| == 0 then ""
    else if |ls| == 1 then ls[0]
    else ls[0] + [sep] + Join(ls[1..], sep)
  }

  /** `line` stands at `p` of `s` as a whole line: a line feed or the end follows it. */
  predicate LineAt(s: string, p: int, line: string) {
    OccursAt(s, p, line) && (p + |line| == |s| || s[p + |line|] == '\n')
  }

  /** A line stays a whole line when text is put before it. */
  lemma LineAtShift(pre: string, s: string, p: nat, line: string)
    requires LineAt(s, p, line)
    ensures LineAt(pre + s, |pre| + p, line)
  {
    var t := pre + s;
    assert forall j :: 0 <= j < |line| ==> t[|pre| + p + j] == line[j];
    if p + |line| < |s| {
      assert t[|pre| + p + |line|] == s[p + |line|];
    }
  }

  /** The first piece of a joined text stands at its start. */
  lemma JoinFirst(ls: seq<string>)
    requires |ls| >= 1
    ensures LineAt(Join(ls, '\n'), 0, ls[0])
  {
    if |ls| > 1 {
      var s := Join(ls, '\n');
      assert s == ls[0] + "\n" + Join(ls[1..], '\n');
      assert s[|ls[0]|] == '\n';
    }
  }

  /** A character missing from every piece, and not the separator, is missing from the joined text. */
  lemma {:induction false} JoinWithout(ls: seq<string>, c: char)
    requires c != '\n'
    requires forall i :: 0 <= i < |ls| ==> c !in ls[i]
    ensures c !in Join(ls, '\n')
    decreases |ls|
  {
    if |ls| > 1 {
      JoinWithout(ls[1..], c);
      assert Join(ls, '\n') == ls[0] + "\n" + Join(ls[1..], '\n');
    }
  }

  /** After each line feed of a joined text stands one of the later pieces, as a whole line. */
  lemma {:induction false} JoinBreak(ls: seq<string>, x: nat) returns (i: nat)
    requires |ls| >= 1 && forall k :: 0 <= k < |ls| ==> '\n' !in ls[k]
    requires x < |Join(ls, '\n')| && Join(ls, '\n')[x] == '\n'
    ensures 1 <= i < |ls| && LineAt(Join(ls, '\n'), x + 1, ls[i])
    decreases |ls|
  {
    if |ls| == 1 {
      assert false;
    }
    var head := ls[0] + "\n";
    var tail := Join(ls[1..], '\n');
    assert Join(ls, '\n') == head + tail;
    if x < |ls[0]| {
      assert false;
    } else if x == |ls[0]| {
      JoinFirst(ls[1..]);
      LineAtShift(head, tail, 0, ls[1]);
      i := 1;
    } else {
      var j := JoinBreak(ls[1..], x - |head|);
      LineAtShift(head, tail, x - |head| + 1, ls[j + 1]);
      i := j + 1;
    }
  }

  /** `s.split(sep)` for a one-character separator: the pieces between
      separators, never an empty list, and joining them gives `s` back. */
  function Split(s: string, sep: char): (r: seq<string>)
    ensures |r| >= 1
    ensures forall i :: 0 <= i < |r| ==> sep !in r[i]
    ensures Join(r, sep) == s
    decreases |s|
  {
    if |s| == 0 then [""]
    else
      var rest := Split(s[1..], sep);
      if s[0] == sep then
        assert ([""] + rest)[1..] == rest;
        [""] + rest
      else
        var r := [[s[0]] + rest[0]] + rest[1..];
        assert r[1..] == rest[1..];
        assert s == [s[0]] + s[1..];
        r
  }

  /** The lines of a text, as `content.split('\n')`. */
  function Lines(s: string): (r: seq<string>)
    ensures |r| >= 1
    ensures forall i :: 0 <= i < |r| ==> '\n' !in r[i]
    ensures Join(r, '\n') == s
  {
    Split(s, '\n')
  }

  lemma {:induction false} SplitWithoutSeparator(s: string, sep: char)
    requires sep !in s
    ensures Split(s, sep) == [s]
    decreases |s|
  {
    if |s| > 0 {
      assert s[0] != sep;
      SplitWithoutSeparator(s[1..], sep);
    }
  }

  /** Splitting at a separator splits the parts independently. */
  lemma {:induction false} SplitAtSeparator(a: string, sep: char, b: string)
    requires sep !in a
    ensures Split(a + [sep] + b, sep) == [a] + Split(b, sep)
    decreases |a|
  {
    var s := a + [sep] + b;
    if |a| == 0 {
      assert s[1..] == b;
    } else {
      assert s[1..] == a[1..] + [sep] + b;
      SplitAtSeparator(a[1..], sep, b);
      assert [s[0]] + a[1..] == a;
    }
  }

  /** Splitting undoes joining, when no piece contains the separator. */
  lemma {:induction false} SplitJoin(ls: seq<string>, sep: char)
    requires |ls| >= 1
    requires forall i :: 0 <= i < |ls| ==> sep !in ls[i]
    ensures Split(Join(ls, sep), sep) == ls
    decreases |ls|
  {
    if |ls| == 1 {
      SplitWithoutSeparator(ls[0], sep);
    } else {
      SplitJoin(ls[1..], sep);
      SplitAtSeparator(ls[0], sep, Join(ls[1..], sep));
      assert [ls[0]] + ls[1..] == ls;
    }
  }

  /** `Lines` of a text with a line break in it. */
  lemma LinesAtBreak(a: string, b: string)
    requires '\n' !in a
    ensures Lines(a + "\n" + b) == [a] + Lines(b)
  {
    SplitAtSeparator(a, '\n', b);
  }

  /** ASCII upper-casing, the case folding of a non-unicode `/i` regular expression on ASCII letters. */
  function Upper(c: char): char {
    if 'a' <= c <= 'z' then (c as int - 32) as char else c
  }

  /** `s` starts with `word` up to ASCII case; `word` is written in upper case. */
  predicate StartsWithIgnoreCase(s: string, word: string) {
    |word| <= |s| && forall i :: 0 <= i < |word| ==> Upper(s[i]) == word[i]
  }
}
