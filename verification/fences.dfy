/**
 Rewriting of fenced code blocks opened without a language tag
 (`fixBareCodeBlocks` of the fixer script).

 A fence line is a line whose text after the leading whitespace starts with
 three backticks; fence lines open and close blocks alternately. Which lines
 open a block is stated here by counting: a fence line opens a block exactly
 when an even number of fence lines comes before it, and it is then the
 (count / 2)-th opening. `FixBareCodeBlocksScan` is the script's loop, which
 tracks the same facts with a flag and a counter.
 */
module Fences {
  import opened Text
  import Language

  const Backticks := "```"

  predicate IsFence(line: string) {
    OccursAt(line, IndentLength(line), Backticks)
  }

  /** The tag is the trimmed text after the backticks of the trimmed line. */
  lemma TagByTrimmed(line: string)
    requires IsFence(line)
    ensures Tag(line) == Trim(TrimStart(line)[3..])
  {
    assert TrimStart(line)[3..] == line[IndentLength(line) + 3..];
  }

  /** A fence line is one whose text after the leading whitespace starts with backticks. */
  lemma IsFenceByTrimmed(line: string)
    ensures IsFence(line) <==> StartsWith(TrimStart(line), Backticks)
  {
    OccursAtIsPrefix(line, IndentLength(line), Backticks);
  }

  /** The language tag of a fence line: what follows the backticks, trimmed. */
  function Tag(line: string): string
    requires IsFence(line)
  {
    Trim(line[IndentLength(line) + 3..])
  }

  /** `lang || null`: an empty tag counts as no tag. */
  function TagOrNone(line: string): Option<string>
    requires IsFence(line)
  {
    if Tag(line) == "" then None else Some(Tag(line))
  }

  /** A text that can stand as a tag: non-empty, without surrounding whitespace, on one line. */
  predicate IsTagText(s: string) {
    |s| > 0 && !IsSpace(s[0]) && !IsSpace(s[|s| - 1]) && '\n' !in s
  }

  predicate ValidTags(tags: seq<Option<string>>) {
    forall k :: 0 <= k < |tags| && tags[k].Some? ==> IsTagText(tags[k].value)
  }

  predicate NoLineBreaks(lines: seq<string>) {
    forall i :: 0 <= i < |lines| ==> '\n' !in lines[i]
  }

  /** The number of fence lines among the first `n` lines. */
  function FenceCount(lines: seq<string>, n: nat): nat
    requires n <= |lines|
  {
    if n == 0 then 0 else FenceCount(lines, n - 1) + (if IsFence(lines[n - 1]) then 1 else 0)
  }

  /** Line `i` opens a block: it is a fence line after an even number of fence lines. */
  predicate IsOpening(lines: seq<string>, i: int) {
    0 <= i < |lines| && IsFence(lines[i]) && FenceCount(lines, i) % 2 == 0
  }

  predicate IsBareOpening(lines: seq<string>, i: int) {
    IsOpening(lines, i) && Tag(lines[i]) == ""
  }

  predicate HasBareOpening(lines: seq<string>) {
    exists i :: 0 <= i < |lines| && IsBareOpening(lines, i)
  }

  /** The position of an opening among all openings, tagged or not. */
  function Ordinal(lines: seq<string>, i: nat): nat
    requires i <= |lines|
  {
    FenceCount(lines, i) / 2
  }

  /** Line `j` is the opening with position `k` among all openings. */
  predicate IsOpeningNumber(lines: seq<string>, j: int, k: nat) {
    IsOpening(lines, j) && Ordinal(lines, j) == k
  }

  predicate HasOpeningNumber(lines: seq<string>, k: nat) {
    exists j :: 0 <= j < |lines| && IsOpeningNumber(lines, j, k)
  }

  // ---------------------------------------------------------------------
  // The reference's tags
  // ---------------------------------------------------------------------

  /** The tags of the openings among the first `n` lines, in order (`null`
      for a bare one): one per opening, so half the fence lines, rounded up. */
  function OpeningTagsTo(lines: seq<string>, n: nat): (tags: seq<Option<string>>)
    requires n <= |lines|
    ensures |tags| == (FenceCount(lines, n) + 1) / 2
  {
    if n == 0 then []
    else OpeningTagsTo(lines, n - 1) + (if IsOpening(lines, n - 1) then [TagOrNone(lines[n - 1])] else [])
  }

  function OpeningTags(lines: seq<string>): seq<Option<string>> {
    OpeningTagsTo(lines, |lines|)
  }

  /** Where the tag of a fence line starts: after the indentation, the
      backticks and the whitespace after them. */
  function TagStart(line: string): nat
    requires IsFence(line)
  {
    var n := IndentLength(line);
    n + 3 + IndentLength(line[n + 3..])
  }

  /** The tag is the slice of the line at `TagStart`, without whitespace at its edges. */
  lemma TagIsSlice(line: string)
    requires IsFence(line)
    ensures var tag := Tag(line);
            && TagStart(line) + |tag| <= |line|
            && tag == line[TagStart(line)..TagStart(line) + |tag|]
            && (tag == [] || (!IsSpace(tag[0]) && !IsSpace(tag[|tag| - 1])))
  {
    TrimSpan(line[IndentLength(line) + 3..]);
  }

  lemma TagOnOneLine(line: string)
    requires IsFence(line) && '\n' !in line
    ensures Tag(line) == "" || IsTagText(Tag(line))
  {
    TagIsSlice(line);
    NotInSlice(line, '\n', TagStart(line), TagStart(line) + |Tag(line)|);
  }

  /** The tags of lines without line breaks can stand as tags. */
  lemma {:induction false} OpeningTagsValid(lines: seq<string>, n: nat)
    requires n <= |lines| && NoLineBreaks(lines)
    ensures ValidTags(OpeningTagsTo(lines, n))
  {
    if n > 0 {
      OpeningTagsValid(lines, n - 1);
      if IsOpening(lines, n - 1) {
        TagOnOneLine(lines[n - 1]);
      }
    }
  }

  /** One more line keeps the entries so far, and an opening's entry comes
      right after them. */
  lemma OpeningTagsToStep(lines: seq<string>, n: nat)
    requires 0 < n <= |lines|
    ensures var prev := OpeningTagsTo(lines, n - 1);
            && |prev| <= |OpeningTagsTo(lines, n)|
            && (forall k :: 0 <= k < |prev| ==> OpeningTagsTo(lines, n)[k] == prev[k])
            && (IsOpening(lines, n - 1) ==>
                  Ordinal(lines, n - 1) == |prev|
                  && OpeningTagsTo(lines, n)[|prev|] == TagOrNone(lines[n - 1]))
  {
  }

  /** The k-th entry of `OpeningTags` is the tag of the k-th opening fence line, */
  lemma {:induction false} OpeningTagsAligned(lines: seq<string>, n: nat)
    requires n <= |lines|
    ensures forall i :: 0 <= i < n && IsOpening(lines, i) ==>
              Ordinal(lines, i) < |OpeningTagsTo(lines, n)|
              && OpeningTagsTo(lines, n)[Ordinal(lines, i)] == TagOrNone(lines[i])
  {
    if n > 0 {
      OpeningTagsAligned(lines, n - 1);
      OpeningTagsToStep(lines, n);
      var prev := OpeningTagsTo(lines, n - 1);
      var tags := OpeningTagsTo(lines, n);
      forall i | 0 <= i < n && IsOpening(lines, i)
        ensures Ordinal(lines, i) < |tags| && tags[Ordinal(lines, i)] == TagOrNone(lines[i])
      {
        if i < n - 1 {
          assert tags[Ordinal(lines, i)] == prev[Ordinal(lines, i)];
        }
      }
    }
  }

  /** and every entry belongs to one. */
  lemma {:induction false} OpeningTagsCovered(lines: seq<string>, n: nat)
    requires n <= |lines|
    ensures forall k :: 0 <= k < |OpeningTagsTo(lines, n)| ==> HasOpeningNumber(lines, k)
  {
    if n > 0 {
      OpeningTagsCovered(lines, n - 1);
      if IsOpening(lines, n - 1) {
        assert IsOpeningNumber(lines, n - 1, |OpeningTagsTo(lines, n - 1)|);
      }
    }
  }

  /** The tags the reference contributes; none without a reference or for an empty one. */
  function ReferenceLanguages(reference: Option<string>): (tags: seq<Option<string>>)
    ensures ValidTags(tags)
  {
    match reference
    case None => []
    case Some(text) =>
      if text == "" then []
      else
        OpeningTagsValid(Lines(text), |Lines(text)|);
        OpeningTags(Lines(text))
  }

  // ---------------------------------------------------------------------
  // The rewrite
  // ---------------------------------------------------------------------

  /** The first fence line at or after `j`, or the end of the text. */
  function NextFence(lines: seq<string>, j: nat): (k: nat)
    requires j <= |lines|
    ensures j <= k <= |lines|
    ensures k == |lines| || IsFence(lines[k])
    ensures forall m :: j <= m < k ==> !IsFence(lines[m])
    decreases |lines| - j
  {
    if j == |lines| || IsFence(lines[j]) then j else NextFence(lines, j + 1)
  }

  /** The lines of the block opened at `i`, up to the next fence line or the end. */
  function BlockBody(lines: seq<string>, i: nat): seq<string>
    requires i < |lines|
  {
    lines[i + 1..NextFence(lines, i + 1)]
  }

  /** The reference's tag at the same position, or else the inferred language. */
  function ResolveLanguage(tags: seq<Option<string>>, k: nat, body: seq<string>): (lang: string)
    requires ValidTags(tags)
    ensures IsTagText(lang)
  {
    if k < |tags| && tags[k].Some? then tags[k].value
    else
      var lang := Language.InferLanguage(Join(body, '\n'));
      LanguagesAreTags(lang);
      lang
  }

  /** Every inferred language can stand as a tag. */
  lemma LanguagesAreTags(lang: string)
    requires lang in Language.Languages
    ensures IsTagText(lang)
  {
    assert lang == "json" || lang == "bash" || lang == "http" || lang == "sql" || lang == "text";
  }

  /** Line `i` after the rewrite. */
  function FixedLine(lines: seq<string>, i: nat, tags: seq<Option<string>>): string
    requires i < |lines|
    requires ValidTags(tags)
  {
    if IsBareOpening(lines, i) then
      Indent(lines[i]) + Backticks + ResolveLanguage(tags, Ordinal(lines, i), BlockBody(lines, i))
    else lines[i]
  }

  /** A rewritten opening is a fence line with the same indentation and the resolved tag. */
  lemma RewrittenOpening(line: string, lang: string)
    requires IsTagText(lang)
    ensures var out := Indent(line) + Backticks + lang;
            && IsFence(out) && TrimStart(out) == Backticks + lang
            && Indent(out) == Indent(line) && Tag(out) == lang
            && ('\n' !in line ==> '\n' !in out)
  {
    IndentThenRest(line);
    FenceWithTag(Indent(line), lang);
    if '\n' !in line {
      NotInSlice(line, '\n', 0, IndentLength(line));
      assert line[0..IndentLength(line)] == Indent(line);
    }
  }

  /** Whitespace, backticks and a tag make a fence line with that indentation and tag. */
  lemma FenceWithTag(w: string, lang: string)
    requires AllSpace(w) && IsTagText(lang)
    ensures var out := w + Backticks + lang;
            && IsFence(out) && TrimStart(out) == Backticks + lang
            && Indent(out) == w && Tag(out) == lang
  {
    PaddedFence(w, lang);
    TrimOfTrimmed(lang);
  }

  /** A line of four backticks is a fence line whose tag is a backtick, so it is never bare. */
  lemma FourBackticksTagged(indent: string)
    requires AllSpace(indent)
    ensures IsFence(indent + "````") && Tag(indent + "````") == "`"
  {
    assert indent + "````" == indent + Backticks + "`";
    FenceWithTag(indent, "`");
  }

  lemma PaddedFence(w: string, lang: string)
    requires AllSpace(w)
    ensures var out := w + Backticks + lang;
            && IndentLength(out) == |w| && IsFence(out)
            && TrimStart(out) == Backticks + lang && Indent(out) == w
            && out[|w| + 3..] == lang
  {
    ThreeParts(w, Backticks, lang);
    IndentLengthOfPadded(w, Backticks + lang);
  }

  function FixedLines(lines: seq<string>, tags: seq<Option<string>>): (out: seq<string>)
    requires ValidTags(tags)
    ensures |out| == |lines|
    ensures forall i :: 0 <= i < |lines| ==> out[i] == FixedLine(lines, i, tags)
  {
    seq(|lines|, i requires 0 <= i < |lines| => FixedLine(lines, i, tags))
  }

  /** `fixBareCodeBlocks(target, reference)`: every bare opening of the target
      gets a tag, and nothing else changes. */
  function FixBareCodeBlocks(target: string, reference: Option<string>): (r: string)
    ensures |Lines(r)| == |Lines(target)|
    ensures forall i :: 0 <= i < |Lines(target)| && !IsBareOpening(Lines(target), i) ==>
              Lines(r)[i] == Lines(target)[i]
    ensures forall i :: IsBareOpening(Lines(target), i) ==>
              && IsFence(Lines(r)[i]) && Tag(Lines(r)[i]) != ""
              && Indent(Lines(r)[i]) == Indent(Lines(target)[i])
  {
    var lines := Lines(target);
    var tags := ReferenceLanguages(reference);
    var out := FixedLines(lines, tags);
    forall i | 0 <= i < |lines|
      ensures '\n' !in out[i]
      ensures IsBareOpening(lines, i) ==>
                IsFence(out[i]) && Tag(out[i]) != "" && Indent(out[i]) == Indent(lines[i])
    {
      if IsBareOpening(lines, i) {
        RewrittenOpening(lines[i], ResolveLanguage(tags, Ordinal(lines, i), BlockBody(lines, i)));
      }
    }
    SplitJoin(out, '\n');
    Join(out, '\n')
  }

  /** The lines of the result are the rewritten lines. */
  lemma FixedLinesOfResult(target: string, reference: Option<string>)
    ensures Lines(FixBareCodeBlocks(target, reference)) == FixedLines(Lines(target), ReferenceLanguages(reference))
  {
    var lines := Lines(target);
    var tags := ReferenceLanguages(reference);
    var out := FixedLines(lines, tags);
    forall i | 0 <= i < |lines|
      ensures '\n' !in out[i]
    {
      if IsBareOpening(lines, i) {
        RewrittenOpening(lines[i], ResolveLanguage(tags, Ordinal(lines, i), BlockBody(lines, i)));
      }
    }
    SplitJoin(out, '\n');
  }

  // ---------------------------------------------------------------------
  // Properties
  // ---------------------------------------------------------------------

  /** Position alignment: a bare opening that is the k-th opening of the target
      takes the tag of the k-th opening of the reference when that one has a tag. */
  lemma PositionalAlignment(target: string, reference: string, i: nat, j: nat)
    requires IsBareOpening(Lines(target), i)
    requires IsOpening(Lines(reference), j) && Tag(Lines(reference)[j]) != ""
    requires Ordinal(Lines(target), i) == Ordinal(Lines(reference), j)
    ensures Lines(FixBareCodeBlocks(target, Some(reference)))[i]
            == Indent(Lines(target)[i]) + Backticks + Tag(Lines(reference)[j])
  {
    FixedLinesOfResult(target, Some(reference));
    OpeningTagsAligned(Lines(reference), |Lines(reference)|);
  }

  /** Fallback: when the reference has no tagged opening at the same position
      (or there is no reference), the tag is inferred from the block's lines. */
  lemma InferenceFallback(target: string, reference: Option<string>, i: nat)
    requires IsBareOpening(Lines(target), i)
    requires reference.Some? ==>
               forall j :: IsOpening(Lines(reference.value), j) && Ordinal(Lines(reference.value), j) == Ordinal(Lines(target), i)
                 ==> Tag(Lines(reference.value)[j]) == ""
    ensures Lines(FixBareCodeBlocks(target, reference))[i]
            == Indent(Lines(target)[i]) + Backticks
               + Language.InferLanguage(Join(BlockBody(Lines(target), i), '\n'))
  {
    FixedLinesOfResult(target, reference);
    var tags := ReferenceLanguages(reference);
    var k := Ordinal(Lines(target), i);
    if reference.Some? && reference.value != "" && k < |tags| {
      assert tags == OpeningTags(Lines(reference.value));
      UntaggedAtOrdinal(Lines(reference.value), k);
    }
  }

  /** When no opening with ordinal `k` has a tag, the k-th collected tag is `null`. */
  lemma UntaggedAtOrdinal(lines: seq<string>, k: nat)
    requires k < |OpeningTags(lines)|
    requires forall j :: IsOpening(lines, j) && Ordinal(lines, j) == k ==> Tag(lines[j]) == ""
    ensures OpeningTags(lines)[k] == None
  {
    OpeningTagsCovered(lines, |lines|);
    OpeningTagsAligned(lines, |lines|);
    assert HasOpeningNumber(lines, k);
    var j :| 0 <= j < |lines| && IsOpeningNumber(lines, j, k);
    assert OpeningTags(lines)[k] == TagOrNone(lines[j]);
  }

  /** A missing reference behaves like a reference without fence lines. */
  lemma MissingReferenceLikeFenceless(target: string, reference: string)
    requires FenceCount(Lines(reference), |Lines(reference)|) == 0
    ensures FixBareCodeBlocks(target, None) == FixBareCodeBlocks(target, Some(reference))
  {
    assert ReferenceLanguages(Some(reference)) == [];
  }

  /** Tagged openings, closing fences, block lines and prose are copied, whatever the reference. */
  lemma OnlyBareOpeningsChange(target: string, reference: Option<string>, i: nat)
    requires i < |Lines(target)|
    ensures Lines(FixBareCodeBlocks(target, reference))[i] != Lines(target)[i]
            <==> IsBareOpening(Lines(target), i)
  {
    if IsBareOpening(Lines(target), i) {
      assert Tag(Lines(FixBareCodeBlocks(target, reference))[i]) != "";
    }
  }

  /** Two lists of lines with fence lines at the same places have the same
      fence counts on every prefix. */
  lemma {:induction false} SameFencesSameCounts(a: seq<string>, b: seq<string>, n: nat)
    requires |a| == |b| && n <= |a|
    requires forall i :: 0 <= i < |a| ==> IsFence(a[i]) == IsFence(b[i])
    ensures FenceCount(a, n) == FenceCount(b, n)
  {
    if n > 0 {
      SameFencesSameCounts(a, b, n - 1);
    }
  }

  /** The result has no bare opening. */
  lemma NoBareOpeningAfterFix(target: string, reference: Option<string>)
    ensures !HasBareOpening(Lines(FixBareCodeBlocks(target, reference)))
  {
    var lines := Lines(target);
    var out := Lines(FixBareCodeBlocks(target, reference));
    forall i | 0 <= i < |lines|
      ensures IsFence(out[i]) == IsFence(lines[i])
    {
    }
    forall i | IsOpening(out, i)
      ensures !IsBareOpening(out, i)
    {
      SameFencesSameCounts(out, lines, i);
      assert IsOpening(lines, i);
    }
  }

  /** Applying the fix twice with the same reference is applying it once. */
  lemma FixIdempotent(target: string, reference: Option<string>)
    ensures var once := FixBareCodeBlocks(target, reference);
            FixBareCodeBlocks(once, reference) == once
  {
    var once := FixBareCodeBlocks(target, reference);
    NoBareOpeningAfterFix(target, reference);
    FixUnchangedIff(once, reference);
  }

  /** The text is returned unchanged exactly when it has no bare opening. */
  lemma FixUnchangedIff(target: string, reference: Option<string>)
    ensures FixBareCodeBlocks(target, reference) == target <==> !HasBareOpening(Lines(target))
  {
    var lines := Lines(target);
    var r := FixBareCodeBlocks(target, reference);
    if HasBareOpening(lines) {
      var i :| IsBareOpening(lines, i);
      OnlyBareOpeningsChange(target, reference, i);
    } else {
      assert Lines(r) == lines;
      assert r == Join(Lines(r), '\n');
    }
  }

  /** A line starting with a character other than whitespace or a backtick is not a fence line. */
  lemma NotFenceByFirst(line: string)
    requires line == [] || (!IsSpace(line[0]) && line[0] != '`')
    ensures !IsFence(line)
  {
    assert IndentLength(line) == 0;
    assert Backticks[0] == '`';
  }

  /** Lines without fences before a text shift its fence counts by nothing. */
  lemma {:induction false} FenceFreePrefixCount(pre: seq<string>, tail: seq<string>, k: nat)
    requires forall i :: 0 <= i < |pre| ==> !IsFence(pre[i])
    requires k <= |pre| + |tail|
    ensures FenceCount(pre + tail, k) == if k <= |pre| then 0 else FenceCount(tail, k - |pre|)
  {
    if k > 0 {
      FenceFreePrefixCount(pre, tail, k - 1);
    }
  }

  /** Lines without fences before a text leave its bare openings as they are. */
  lemma FenceFreePrefix(pre: seq<string>, tail: seq<string>)
    requires forall i :: 0 <= i < |pre| ==> !IsFence(pre[i])
    ensures HasBareOpening(pre + tail) <==> HasBareOpening(tail)
  {
    var all := pre + tail;
    if HasBareOpening(all) {
      var i :| 0 <= i < |all| && IsBareOpening(all, i);
      if i < |pre| {
        assert false;
      }
      BareOpeningShift(pre, tail, i - |pre|);
    }
    if HasBareOpening(tail) {
      var k :| 0 <= k < |tail| && IsBareOpening(tail, k);
      BareOpeningShift(pre, tail, k);
    }
  }

  lemma BareOpeningShift(pre: seq<string>, tail: seq<string>, k: nat)
    requires forall i :: 0 <= i < |pre| ==> !IsFence(pre[i])
    requires k < |tail|
    ensures IsBareOpening(pre + tail, |pre| + k) <==> IsBareOpening(tail, k)
  {
    FenceFreePrefixCount(pre, tail, |pre| + k);
    assert (pre + tail)[|pre| + k] == tail[k];
  }

  // ---------------------------------------------------------------------
  // The script's loop
  // ---------------------------------------------------------------------

  /** One line of the first loop: the in-block flag flips on a fence line,
      and an opening adds its tag, or `null` when it has none. */
  lemma OpeningScanStep(lines: seq<string>, n: nat)
    requires n < |lines|
    ensures var trimmed := TrimStart(lines[n]);
            var inBlock := FenceCount(lines, n) % 2 == 1;
            var lang := if StartsWith(trimmed, Backticks) then Trim(trimmed[3..]) else "";
            && (FenceCount(lines, n + 1) % 2 == 1) == (if StartsWith(trimmed, Backticks) then !inBlock else inBlock)
            && OpeningTagsTo(lines, n + 1)
               == if StartsWith(trimmed, Backticks) && !inBlock
                  then OpeningTagsTo(lines, n) + [if lang == "" then None else Some(lang)]
                  else OpeningTagsTo(lines, n)
  {
    CounterStep(lines, n);
    if IsOpening(lines, n) {
      TagByTrimmed(lines[n]);
      assert OpeningTagsTo(lines, n + 1) == OpeningTagsTo(lines, n) + [TagOrNone(lines[n])];
    } else {
      assert OpeningTagsTo(lines, n + 1) == OpeningTagsTo(lines, n);
    }
  }

  /** The first loop over the lines of a non-empty reference. */
  method OpeningTagsScan(lines: seq<string>) returns (tags: seq<Option<string>>)
    ensures tags == OpeningTags(lines)
  {
    tags := [];
    var inBlock := false;
    for n := 0 to |lines|
      invariant inBlock == (FenceCount(lines, n) % 2 == 1)
      invariant tags == OpeningTagsTo(lines, n)
    {
      OpeningScanStep(lines, n);
      var trimmed := TrimStart(lines[n]);
      if StartsWith(trimmed, Backticks) {
        if !inBlock {
          var lang := Trim(trimmed[3..]);
          tags := tags + [if lang == "" then None else Some(lang)];
          inBlock := true;
        } else {
          inBlock := false;
        }
      }
    }
  }

  /** The script's first loop: the reference's opening tags, found with an in-block flag. */
  method ReferenceTagsScan(reference: Option<string>) returns (refLanguages: seq<Option<string>>)
    ensures refLanguages == ReferenceLanguages(reference)
  {
    refLanguages := [];
    if reference.Some? && reference.value != "" {
      refLanguages := OpeningTagsScan(Lines(reference.value));
    }
  }

  /** The script's inner loop: the lines after `start` up to the next fence line. */
  method BlockLinesScan(lines: seq<string>, start: nat) returns (contentLines: seq<string>)
    requires start <= |lines|
    ensures contentLines == lines[start..NextFence(lines, start)]
  {
    contentLines := [];
    var j := start;
    while j < |lines|
      invariant start <= j <= |lines|
      invariant contentLines == lines[start..j]
      invariant forall m :: start <= m < j ==> !IsFence(lines[m])
    {
      IsFenceByTrimmed(lines[j]);
      if StartsWith(TrimStart(lines[j]), Backticks) {
        break;
      }
      contentLines := contentLines + [lines[j]];
      j := j + 1;
    }
    NextFenceIsFirst(lines, start, j);
  }

  /** `NextFence` is the first fence line at or after `j`. */
  lemma {:induction false} NextFenceIsFirst(lines: seq<string>, j: nat, k: nat)
    requires j <= k <= |lines|
    requires k == |lines| || IsFence(lines[k])
    requires forall m :: j <= m < k ==> !IsFence(lines[m])
    ensures NextFence(lines, j) == k
    decreases k - j
  {
    if j < k {
      NextFenceIsFirst(lines, j + 1, k);
    }
  }

  /** One pass of the script's main loop over line `i`: the line as it is
      pushed to the result. */
  method FixLineScan(lines: seq<string>, i: nat, refLanguages: seq<Option<string>>, inBlock: bool, blockIndex: nat)
    returns (out: string)
    requires i < |lines| && ValidTags(refLanguages)
    requires inBlock == (FenceCount(lines, i) % 2 == 1)
    requires blockIndex == (FenceCount(lines, i) + 1) / 2
    ensures out == FixedLine(lines, i, refLanguages)
  {
    var line := lines[i];
    var trimmed := TrimStart(line);
    LineScanFacts(lines, i);
    out := line;
    if StartsWith(trimmed, Backticks) && !inBlock {
      var lang := Trim(trimmed[3..]);
      if lang == "" {
        var contentLines := BlockLinesScan(lines, i + 1);
        var refLang := if blockIndex < |refLanguages| then refLanguages[blockIndex] else None;
        var resolvedLang := if refLang.Some? then refLang.value else Language.InferLanguage(Join(contentLines, '\n'));
        var indent := line[..|line| - |trimmed|];
        assert resolvedLang == ResolveLanguage(refLanguages, blockIndex, BlockBody(lines, i));
        out := indent + Backticks + resolvedLang;
      }
    }
  }

  /** What the main loop reads off line `i`, in the model's terms. */
  lemma LineScanFacts(lines: seq<string>, i: nat)
    requires i < |lines|
    ensures var trimmed := TrimStart(lines[i]);
            var fence := StartsWith(trimmed, Backticks);
            && (IsBareOpening(lines, i)
                <==> fence && FenceCount(lines, i) % 2 == 0 && Trim(trimmed[3..]) == "")
            && (IsBareOpening(lines, i) ==> Ordinal(lines, i) == (FenceCount(lines, i) + 1) / 2)
            && lines[i][..|lines[i]| - |trimmed|] == Indent(lines[i])
  {
    IsFenceByTrimmed(lines[i]);
    if IsFence(lines[i]) {
      TagByTrimmed(lines[i]);
    }
    IndentByLength(lines[i]);
  }

  /** One line of the main loop: the in-block flag flips on a fence line, and
      the block counter moves past each opening. */
  lemma CounterStep(lines: seq<string>, i: nat)
    requires i < |lines|
    ensures var inBlock := FenceCount(lines, i) % 2 == 1;
            var fence := StartsWith(TrimStart(lines[i]), Backticks);
            && (FenceCount(lines, i + 1) % 2 == 1) == (if fence then !inBlock else inBlock)
            && (FenceCount(lines, i + 1) + 1) / 2
               == (FenceCount(lines, i) + 1) / 2 + (if fence && !inBlock then 1 else 0)
  {
    IsFenceByTrimmed(lines[i]);
  }

  /** The main loop over the target's lines, with an in-block flag and a
      block counter. */
  method FixLinesScan(lines: seq<string>, refLanguages: seq<Option<string>>) returns (result: seq<string>)
    requires ValidTags(refLanguages)
    ensures result == FixedLines(lines, refLanguages)
  {
    result := [];
    var inBlock := false;
    var blockIndex := 0;
    for i := 0 to |lines|
      invariant |result| == i
      invariant forall k :: 0 <= k < i ==> result[k] == FixedLine(lines, k, refLanguages)
      invariant inBlock == (FenceCount(lines, i) % 2 == 1)
      invariant blockIndex == (FenceCount(lines, i) + 1) / 2
    {
      var out := FixLineScan(lines, i, refLanguages, inBlock, blockIndex);
      CounterStep(lines, i);
      if StartsWith(TrimStart(lines[i]), Backticks) {
        if !inBlock {
          blockIndex := blockIndex + 1;
        }
        inBlock := !inBlock;
      }
      PushFixedLine(lines, refLanguages, result, i, out);
      result := result + [out];
    }
  }

  /** The rewritten lines so far, and one more. */
  lemma PushFixedLine(lines: seq<string>, tags: seq<Option<string>>, result: seq<string>, i: nat, out: string)
    requires i < |lines| && ValidTags(tags) && |result| == i
    requires forall k :: 0 <= k < i ==> result[k] == FixedLine(lines, k, tags)
    requires out == FixedLine(lines, i, tags)
    ensures forall k :: 0 <= k < i + 1 ==> (result + [out])[k] == FixedLine(lines, k, tags)
  {
  }

  /** The result is the rewritten lines joined again. */
  lemma FixBareCodeBlocksJoins(target: string, reference: Option<string>)
    ensures FixBareCodeBlocks(target, reference)
            == Join(FixedLines(Lines(target), ReferenceLanguages(reference)), '\n')
  {
  }

  /** `fixBareCodeBlocks` as the script writes it: the reference's tags, then
      the main loop, then the lines joined again. */
  method FixBareCodeBlocksScan(target: string, reference: Option<string>) returns (r: string)
    ensures r == FixBareCodeBlocks(target, reference)
  {
    var refLanguages := ReferenceTagsScan(reference);
    var result := FixLinesScan(Lines(target), refLanguages);
    FixBareCodeBlocksJoins(target, reference);
    r := Join(result, '\n');
  }
}
