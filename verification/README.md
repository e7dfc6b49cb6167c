# A verified model of the documentation quality fixer

The fixer (`scripts/fix-doc-quality.ts`) runs after the Japanese
documentation (`docs/ja/`) has been machine-translated into English
(`docs/en/`). It makes three repairs to the English pages:

1. It gives every fenced code block opened without a language tag a tag. The tag
   comes from the Japanese page's block at the same position, or is inferred
   from the block's content.
2. It gives every page without a frontmatter title the text of its first
   level-one heading as its title.
3. It copies every Japanese page that has no English counterpart.

This project models that core in Dafny and proves what it computes.

| file | module | models |
|---|---|---|
| `text.dfy` | `Text` | `trimStart`, `trim`, `startsWith`, `indexOf`, `split`, `join` on ASCII whitespace |
| `language.dfy` | `Language` | `inferLanguage`: the JSON test stated once; the shell, HTTP and SQL patterns each stated twice (as the regular expression says it, and as a scan) and proved equal |
| `fences.dfy` | `Fences` | `fixBareCodeBlocks`: a declarative rewrite by fence counting, and the script's loops proved to compute it |
| `frontmatter.dfy` | `Frontmatter` | `parseFrontmatter`, `hasFrontmatterTitle`, `extractTitleFromHeading`, `addFrontmatterTitle` |
| `quality.dfy` | `QualityFixes` | `collectMdFiles` as a filter, and `runQualityFixes` as a function of two trees |
| `runner.dfy` | `Runner` | the two loops of `runQualityFixes`, proved to compute `QualityFixes.RunQualityFixes` |

## How the model is built

- A documentation tree is a `map<string, string>` from a path to a file's contents. Paths are relative to the tree's root.
- A missing Japanese tree is `None`. A run on `None` gives the outcome `SourceMissing`, which stands for the exit with status 1.
- A missing English directory is the empty tree.
- The regular expressions are written out as recognisers. Each one follows how JavaScript matches that pattern:
  - A lazy `[\s\S]*?` followed by a delimiter finds the least position where the delimiter starts (`Frontmatter.FirstClose`).
  - A greedy `\s+` followed by `.` runs over all the whitespace, line breaks included, then gives back as little as it must (`Frontmatter.HeadingCaptureStart`).
  - `/i` on ASCII letters is upper-casing (`Text.Upper`).
- `fixBareCodeBlocks` is stated by counting. A fence line opens a block exactly when an even number of fence lines comes before it. It is then opening number `count / 2`, tagged or not.

Where the code and its descriptions disagree, the model follows the code:

- The comment at line 13 of the script orders the rules JSON, bash, SQL, HTTP. The code tries HTTP before SQL (lines 24-29).
- The shell rule (line 22) has no multiline flag, so a `$` prompt counts only when nothing but whitespace comes before it. Blank lines before the prompt do not hide it, because `\s*` crosses line breaks (`Language.PromptIsBash`). A prompt after a line holding other text is not seen (`Language.LaterPromptIsNotShell`).
- In a frontmatter block each line is split at its first colon. A later line with the same key overwrites an earlier one (line 121).
- A block with no lines between its delimiters (`---` on two consecutive lines) is not read. The closing pattern needs a line break of its own after the block's text.

## Model

| member | source | states |
|---|---|---|
| `Text.IndentThenRest` | scripts/fix-doc-quality.ts:16 | a text is its indentation, all whitespace, followed by what `trimStart` leaves, which does not start with whitespace |
| `Text.TrimStartIdempotent` | scripts/fix-doc-quality.ts:16 | `trimStart` of a trimmed text changes nothing |
| `Text.TrimSpan` | scripts/fix-doc-quality.ts:49 | `trim` leaves a slice of the text that starts where the indentation ends, has no whitespace at either edge, and is followed only by whitespace |
| `Text.TrimEmptyIffAllSpace` | scripts/fix-doc-quality.ts:70-71 | `trim` gives the empty text exactly for a whitespace-only text, so a fence's tag is missing exactly when only whitespace follows the backticks |
| `Text.IndexOf` | scripts/fix-doc-quality.ts:117 | there is no answer exactly when the character is absent; otherwise the answer is its first position |
| `Text.Split` | scripts/fix-doc-quality.ts:43 | `split` never gives an empty list, no piece holds the separator, and joining the pieces gives the text back |
| `Text.SplitJoin` | scripts/fix-doc-quality.ts:59-105 | splitting undoes joining when no piece holds the separator, so re-joined lines split into the same lines |
| `Text.JoinBreak` | scripts/fix-doc-quality.ts:116 | after each line feed of a joined text stands one of the later pieces, followed by a line feed or the end |
| `Language.InferLanguage` | scripts/fix-doc-quality.ts:15-32 | the inference is total, and its answer is one of `json`, `bash`, `http`, `sql`, `text` |
| `Language.InferLanguageFirstMatch` | scripts/fix-doc-quality.ts:15-31 | each answer is given exactly when its rule's pattern matches and no earlier rule's does, in the order JSON, shell prompt, HTTP, SQL; `text` exactly when none matches |
| `Language.ShellPromptScan` | scripts/fix-doc-quality.ts:22 | `^\s*\$\s` matches the block exactly when its text after the leading whitespace starts with `$` and a whitespace character |
| `Language.RequestLineScan` | scripts/fix-doc-quality.ts:26 | the request-line pattern matches exactly when the text starts, up to case, with some verb followed by at least one whitespace character and then `/` after the run of whitespace |
| `Language.SqlScan` | scripts/fix-doc-quality.ts:29 | on a text without leading whitespace, the SQL pattern matches exactly when a keyword, up to case, starts it as a whole word |
| `Language.InferLanguageIgnoresIndent` | scripts/fix-doc-quality.ts:16-29 | only the text after the leading whitespace decides the language |
| `Language.DeleteRequestIsHttp` | scripts/fix-doc-quality.ts:24-29 | a `DELETE` request line matches the SQL pattern too, yet it is classified `http` |
| `Language.LaterPromptIsNotShell` | scripts/fix-doc-quality.ts:21-22 | a block whose first line starts with a character other than whitespace or `$` is never `bash`, whatever prompts follow on later lines |
| `Language.PromptIsBash` | scripts/fix-doc-quality.ts:22 | whitespace (blank lines included), `$` and a whitespace character make a `bash` block, whatever follows |
| `Language.SelectIsSql` | scripts/fix-doc-quality.ts:29 | `SELECT` in any case, as a whole word after the indentation, makes an `sql` block |
| `Language.EmptyIsText` | scripts/fix-doc-quality.ts:31 | an empty block is `text` |
| `Fences.IsFenceByTrimmed` | scripts/fix-doc-quality.ts:46-47 | a line is a fence line exactly when its `trimStart` starts with three backticks |
| `Fences.TagByTrimmed` | scripts/fix-doc-quality.ts:49 | a fence line's tag is the trimmed text after the backticks of its trimmed form |
| `Fences.FourBackticksTagged` | scripts/fix-doc-quality.ts:70-71 | a line of four backticks is a fence line tagged with one backtick, so it is never bare |
| `Fences.OpeningTagsAligned` | scripts/fix-doc-quality.ts:41-57 | the k-th collected tag is the tag of the k-th opening fence line, or `null` when it has none |
| `Fences.OpeningTagsCovered` | scripts/fix-doc-quality.ts:41-57 | every collected tag belongs to an opening fence line |
| `Fences.ReferenceLanguages` | scripts/fix-doc-quality.ts:41-57 | a missing or empty reference contributes no tags; every collected tag is non-empty, one line, and trimmed |
| `Fences.OpeningScanStep` | scripts/fix-doc-quality.ts:45-55 | one line of the reference loop flips the in-block flag on a fence line and adds an opening's tag, `null` for none |
| `Fences.OpeningTagsScan` | scripts/fix-doc-quality.ts:43-56 | the reference loop's list is the list of the openings' tags |
| `Fences.ReferenceTagsScan` | scripts/fix-doc-quality.ts:41-57 | the script's tag collection, including the `if (referenceContent)` test, computes the reference's tags |
| `Fences.NextFence` | scripts/fix-doc-quality.ts:74-80 | the first fence line at or after a line, or the end of the text, with no fence line before it |
| `Fences.BlockLinesScan` | scripts/fix-doc-quality.ts:73-80 | the content loop collects the lines after the opening up to the next fence line or the end |
| `Fences.ResolveLanguage` | scripts/fix-doc-quality.ts:83-84 | the resolved language is never empty, has no edge whitespace and sits on one line |
| `Fences.RewrittenOpening` | scripts/fix-doc-quality.ts:86-88 | a rewritten opening is a fence line with the original indentation and exactly the resolved tag, and stays on one line |
| `Fences.FixBareCodeBlocks` | scripts/fix-doc-quality.ts:39-106 | the result has as many lines as the target; every line that is not a bare opening is copied; every bare opening becomes a tagged fence line with its indentation kept |
| `Fences.FixedLinesOfResult` | scripts/fix-doc-quality.ts:59-105 | the result's lines are exactly the rewritten lines |
| `Fences.PositionalAlignment` | scripts/fix-doc-quality.ts:83-88 | a bare opening numbered k takes the tag of the reference's opening numbered k when that one has a tag |
| `Fences.InferenceFallback` | scripts/fix-doc-quality.ts:83-84 | without a tagged reference opening at the same number, the tag is the language inferred from the block's lines up to the next fence line |
| `Fences.MissingReferenceLikeFenceless` | scripts/fix-doc-quality.ts:42 | a missing reference gives the same result as a reference without fence lines |
| `Fences.OnlyBareOpeningsChange` | scripts/fix-doc-quality.ts:64-103 | a line changes exactly when it is a bare opening |
| `Fences.NoBareOpeningAfterFix` | scripts/fix-doc-quality.ts:64-103 | the result has no bare opening |
| `Fences.FixUnchangedIff` | scripts/fix-doc-quality.ts:224-225 | the text comes back unchanged exactly when it has no bare opening |
| `Fences.FixIdempotent` | scripts/fix-doc-quality.ts:39-106 | fixing the fixed text again with the same reference changes nothing |
| `Fences.CounterStep` | scripts/fix-doc-quality.ts:89-98 | the in-block flag is the parity of the fence lines so far, and the block counter moves past each opening, tagged or not |
| `Fences.FixLineScan` | scripts/fix-doc-quality.ts:65-102 | one pass of the main loop pushes the rewritten line |
| `Fences.FixLinesScan` | scripts/fix-doc-quality.ts:59-103 | the main loop, with its flag and counter, produces the rewritten lines |
| `Fences.FixBareCodeBlocksScan` | scripts/fix-doc-quality.ts:39-106 | the script's function as written computes the declarative rewrite |
| `Frontmatter.OpeningMarker` | scripts/fix-doc-quality.ts:156 | there is an opening delimiter exactly when the page starts with `---` and a line feed, or with `---`, a carriage return and a line feed; the block's text starts after it |
| `Frontmatter.ParseFrontmatter` | scripts/fix-doc-quality.ts:112-125 | a page has fields only when it opens with the delimiter; every key and value is trimmed and on one line, and no key holds a colon |
| `Frontmatter.HasFrontmatterTitle` | scripts/fix-doc-quality.ts:131-136 | only a page that opens with `---` and has a closed block can be titled |
| `Frontmatter.FirstClose` | scripts/fix-doc-quality.ts:113 | the lazy match ends at the least position from which a closing starts, with none before it; no match means no closing at all |
| `Frontmatter.FieldOf` | scripts/fix-doc-quality.ts:117-121 | a line defines a field exactly when its first colon exists and is not its first character; the key is the trimmed text before that colon and the value the trimmed text after it |
| `Frontmatter.ParseFieldsKeys` | scripts/fix-doc-quality.ts:116-123 | a key is in the parsed map exactly when some line of the block defines it |
| `Frontmatter.ParseFieldsAppend` | scripts/fix-doc-quality.ts:116-123 | the fields of two runs of lines are those of the first overwritten by those of the second |
| `Frontmatter.ParseFieldsLastWins` | scripts/fix-doc-quality.ts:121 | a key's value is the one on the last line that defines it |
| `Frontmatter.ParseBuiltBlock` | scripts/fix-doc-quality.ts:112-125 | a page written as `---`, the block's lines and a closing `---` parses to the fields of those lines |
| `Frontmatter.TitleLineTitles` | scripts/fix-doc-quality.ts:131-136 | on a page with line feeds, a block whose last `title` line has a non-empty value makes the page titled |
| `Frontmatter.HomeLayoutTitles` | scripts/fix-doc-quality.ts:134 | on a page with line feeds, a block whose last `layout` line says `home` makes the page titled, whatever its title line says |
| `Frontmatter.NoTitleLineUntitled` | scripts/fix-doc-quality.ts:131-136 | on a page with line feeds, a block with neither a `title` nor a `layout` line leaves the page untitled |
| `Frontmatter.StripFrontmatter` | scripts/fix-doc-quality.ts:144 | the strip leaves a suffix of the page, and the whole page when it does not open with `---` and a line break |
| `Frontmatter.StripBuiltBlock` | scripts/fix-doc-quality.ts:144 | on a page with a written block, the strip removes exactly the opening line, the block and its `---` closing line, and leaves the rest of the page |
| `Frontmatter.TitleAfterBuiltBlock` | scripts/fix-doc-quality.ts:143-147 | the title of a page with a written block is the trimmed first heading of the text after the closing line, and no heading means no title |
| `Frontmatter.ClosingLength` | scripts/fix-doc-quality.ts:144 | the stripped closing is one of the four forms of `\r?\n---\r?\n`, the longest that fits |
| `Frontmatter.HeadingCaptureStart` | scripts/fix-doc-quality.ts:145 | the heading pattern matches at a line start exactly when the capture can start somewhere, and the capture starts at the last place it can |
| `Frontmatter.FirstHeadingLine` | scripts/fix-doc-quality.ts:145 | the first line start at which the heading pattern matches, with no match before it |
| `Frontmatter.HeadingCapture` | scripts/fix-doc-quality.ts:145 | the capture holds no line break |
| `Frontmatter.ExtractTitleFromHeading` | scripts/fix-doc-quality.ts:142-148 | an extracted title is on one line and has no whitespace at its edges |
| `Frontmatter.HeadingAtStart` | scripts/fix-doc-quality.ts:145-147 | a page that opens with `#` and whitespace (line breaks included) takes as title the rest of the first non-blank line, trimmed |
| `Frontmatter.HeadingAfterBlank` | scripts/fix-doc-quality.ts:145-146 | blank lines before a line of `#`, whitespace and text are passed over: the capture is the rest of that line |
| `Frontmatter.HeadingAfterBuiltBlock` | scripts/fix-doc-quality.ts:143-147 | a page with a written block, then blank lines, then a level-one heading, takes the heading's trimmed text as its title |
| `Frontmatter.SubheadingIsNoTitle` | scripts/fix-doc-quality.ts:145-146 | a page that is a single `##` heading has no title |
| `Frontmatter.NoHeadingLineNoTitle` | scripts/fix-doc-quality.ts:144-146 | a page on which no line after the frontmatter starts with `#` and a whitespace character has no title |
| `Frontmatter.AddFrontmatterTitle` | scripts/fix-doc-quality.ts:155-163 | the result starts with `---` and the title line; it ends with the page's text after the opening delimiter, or with a closing delimiter, an empty line and the whole page when there was none |
| `Frontmatter.AddFrontmatterTitleAsWritten` | scripts/fix-doc-quality.ts:155-163 | the script's function as written: the result starts with `---` and the start of the title line; on a page without a block it is the same as the corrected function; on a page with one it ends with the page's text after the opening delimiter |
| `Frontmatter.AsWrittenWithoutDollar` | scripts/fix-doc-quality.ts:159 | for a title without `$` the script's replacement inserts the title as it is |
| `Frontmatter.DoubledDollarCollapses` | scripts/fix-doc-quality.ts:159 | in an existing block, the script writes a title with `$$` as one with a single `$` |
| `Frontmatter.RestOfPageInserted` | scripts/fix-doc-quality.ts:159 | in an existing block, the script writes a title holding `$'` with the page's whole text after the opening delimiter in place of the `$'` |
| `Frontmatter.ParseAfterAddFresh` | scripts/fix-doc-quality.ts:161-162 | a page without a block, once titled, parses to the title alone and counts as titled |
| `Frontmatter.ParseAfterAddIntoBlock` | scripts/fix-doc-quality.ts:113-123 | in an existing block the title becomes the first field, so a `title` line of the block wins over it; an unclosed block stays unread |
| `Frontmatter.CloseInAdded` | scripts/fix-doc-quality.ts:113 | when the block's text does not start with `---`, the block closes at the same place of the original text after the title line is inserted |
| `Frontmatter.UnclosedBlockStaysUntitled` | scripts/fix-doc-quality.ts:113-114 | an opened but never-closed block whose text does not start with `---` is not read, so the page is still untitled after a title is added |
| `Frontmatter.EmptyTitleShadowsAdded` | scripts/fix-doc-quality.ts:121-135 | when the block's text does not start with `---`, an empty `title:` in the block shadows the added title, so adding one changes nothing about whether the page is titled |
| `Frontmatter.TitleAddedIsSeen` | scripts/fix-doc-quality.ts:159 | a closed block whose text does not start with `---` and that has no `title` line is titled once a title is added |
| `Frontmatter.AddBeforeDelimiterTitles` | scripts/fix-doc-quality.ts:112-159 | when the block's text starts with `---` (an empty block, or a line such as `---x`), the inserted title line becomes the whole block: the page then holds the title alone and is titled, whatever it held before |
| `Frontmatter.LinesAfterAdd` | scripts/fix-doc-quality.ts:155-163 | the added lines come before the page's lines: four lines before the whole page, or the title line in place of the opening delimiter's line |
| `Frontmatter.OpeningMarkerByLines` | scripts/fix-doc-quality.ts:156 | a page has an opening delimiter exactly when its first line is `---` (or `---` and a carriage return) and a second line follows |
| `QualityFixes.CollectedBySegments` | scripts/fix-doc-quality.ts:175-187 | a file the walk reaches through entries joined with `/` is collected exactly when it is in the tree, no entry on its path starts with a dot, and its name ends in `.md` |
| `QualityFixes.TitleStep` | scripts/fix-doc-quality.ts:233-243 | the title step changes a page exactly when the page has no title and its first heading gives a non-empty text; it then adds exactly that text, and otherwise leaves the page as it is |
| `QualityFixes.FixFile` | scripts/fix-doc-quality.ts:222-243 | a file counts as code-fixed exactly when it has a bare opening, and as title-fixed exactly when, after the code fix, it lacks a title its first heading can give; with neither, it is left as it is |
| `QualityFixes.FixedTree` | scripts/fix-doc-quality.ts:213-248 | fixing keeps the English tree's paths |
| `QualityFixes.MissingInEn` | scripts/fix-doc-quality.ts:252-255 | the pages to copy are none of the English tree's paths |
| `QualityFixes.RunQualityFixes` | scripts/fix-doc-quality.ts:202-205 | the run stops with an error exactly when the Japanese tree is missing |
| `QualityFixes.TitleStepKeepsFences` | scripts/fix-doc-quality.ts:233-243 | the title step neither makes nor removes a bare opening, and adds lines when it changes the page |
| `QualityFixes.FixFileLeavesNoBareOpening` | scripts/fix-doc-quality.ts:224-243 | after both steps no block in the page lacks a tag |
| `QualityFixes.FixFileChangedIff` | scripts/fix-doc-quality.ts:220-247 | a file is written exactly when one of the two fixes was made |
| `QualityFixes.CodeFixKeepsOpeningMarker` | scripts/fix-doc-quality.ts:224-236 | the fence fix never makes or unmakes a frontmatter opening |
| `QualityFixes.AddFreshKeepsFences` | scripts/fix-doc-quality.ts:161-162 | putting a new block before a page neither makes nor removes a bare opening, and adds lines |
| `QualityFixes.AddIntoBlockKeepsFences` | scripts/fix-doc-quality.ts:156-159 | inserting the title line into an existing block neither makes nor removes a bare opening, and adds lines |
| `QualityFixes.TitleStepIdempotentFresh` | scripts/fix-doc-quality.ts:233-243 | on a page without frontmatter, the title step applied to its own result changes nothing |
| `QualityFixes.FixFileIdempotentFresh` | scripts/fix-doc-quality.ts:215-248 | a second run over a page without frontmatter, with the same reference, changes nothing and counts nothing |
| `QualityFixes.FixFileCleanIff` | scripts/fix-doc-quality.ts:222-247 | a file is left alone with nothing counted exactly when it has no bare opening and needs no title |
| `QualityFixes.RunKeys` | scripts/fix-doc-quality.ts:213-263 | the English tree after a run has its own paths plus the Japanese pages, and nothing else |
| `QualityFixes.RunLeavesOtherFiles` | scripts/fix-doc-quality.ts:182 | files of the English tree that are not pages are left as they are |
| `QualityFixes.RunCopiesMissingPages` | scripts/fix-doc-quality.ts:252-262 | every file a run adds is a Japanese page, copied as it is |
| `QualityFixes.RunFixesEveryPage` | scripts/fix-doc-quality.ts:215-247 | every English page is fixed with the Japanese page at the same path as reference, and ends with no bare opening |
| `QualityFixes.ChangedPagesAreCounted` | scripts/fix-doc-quality.ts:225-238 | the pages whose content a run changes are exactly those counted by the code-block fix or by the title fix |
| `QualityFixes.RunCountsChangedPages` | scripts/fix-doc-quality.ts:208-260 | the code-block and title counters are each at most the number of changed pages, which is at most the number of English pages; the parity counter is the number of Japanese pages the English tree lacks |
| `QualityFixes.NothingMissing` | scripts/fix-doc-quality.ts:252-263 | when every Japanese page has an English counterpart, nothing is copied and the run's English tree is the fixed tree |
| `QualityFixes.CleanTreeUnchanged` | scripts/fix-doc-quality.ts:197-267 | a run over a clean tree with nothing missing changes nothing and counts zero of each fix |
| `QualityFixes.UnchangedTreeIsClean` | scripts/fix-doc-quality.ts:197-267 | a run that changes nothing and counts nothing was given clean pages and no missing page |
| `QualityFixes.RunUnchangedIff` | scripts/fix-doc-quality.ts:197-267 | a run changes nothing and counts nothing exactly when every page is clean and every Japanese page has an English counterpart |
| `QualityFixes.SecondRunCopiesNothing` | scripts/fix-doc-quality.ts:251-263 | after a run a second run copies no page |
| `Runner.ProcessPages` | scripts/fix-doc-quality.ts:215-248 | the English loop replaces each listed page by its fixed content and counts the pages each fix was made to |
| `Runner.FixPages` | scripts/fix-doc-quality.ts:213-249 | the English loop over the listed pages gives the fixed tree and the two counters |
| `Runner.CopyMissing` | scripts/fix-doc-quality.ts:252-263 | the parity loop copies each listed page the tree lacks, and counts it |
| `Runner.RunQualityFixesLoop` | scripts/fix-doc-quality.ts:197-267 | the script's two loops compute the run |

## Left out

- File system calls (`readFileSync`, `writeFileSync`, `readdirSync`, `existsSync`, `mkdirSync`, `join`, `relative`, `dirname`) are not modelled. Trees are maps from relative paths to contents, and a write is a map update.
- `existsSync` is also true when a directory stands at a page's path. In the model a path is present only as a file.
- Console output (lines 203, 229, 239, 241, 261, 265) is not modelled.
- `process.exit(1)` when the Japanese directory is missing is not modelled as an exit. It is the outcome `SourceMissing`.
- The `main` entry point and its guard (lines 273-280) are not modelled.
- `collectMdFiles` sorts its paths. The model only needs each page listed once: pages are processed independently, so the order changes nothing.
- Unicode whitespace is not modelled. JavaScript's `\s` and `trim` also take no-break space, the byte-order mark and the Unicode space separators; U+2028 and U+2029 are also line terminators for `.` and a multiline `^`. The model uses the ASCII set: space, tab, line feed, carriage return, form feed, vertical tab.
- Strings are modelled as sequences of characters, not as UTF-16 code units.
- A frontmatter key `__proto__` does not become a property of the script's plain object. The model's map stores it like any other key.
- The end-to-end tests and the site configuration are not part of this model.
- `QualityFixes.TitleStep`, `QualityFixes.FixFile`, `QualityFixes.TitleStepKeepsFences`, `QualityFixes.AddIntoBlockKeepsFences`, `QualityFixes.FixFileLeavesNoBareOpening` and `QualityFixes.RunFixesEveryPage` describe the run with the corrected title insertion (`Frontmatter.AddFrontmatterTitle`), not with line 159 as written. The two agree on every title without `$` (`Frontmatter.AsWrittenWithoutDollar`). With a `$'` in a title they do not, and a bare opening can remain (see Findings).
- `QualityFixes.FixFileIdempotentFresh` is proved only for pages without frontmatter. On a page with a block the title can be added again on the next run (`Frontmatter.EmptyTitleShadowsAdded`, `Frontmatter.UnclosedBlockStaysUntitled`). The cases where it is not are left unproved.
- `QualityFixes.TitleStepIdempotentFresh` is proved only for pages without frontmatter, for the same reason.
- `Frontmatter.ParseAfterAddIntoBlock`, `Frontmatter.CloseInAdded`, `Frontmatter.UnclosedBlockStaysUntitled`, `Frontmatter.EmptyTitleShadowsAdded` and `Frontmatter.TitleAddedIsSeen` are stated only for blocks whose text does not start right away with `---`. When the block's text does start with `---`, the inserted title line becomes the whole block, and the page is titled afterwards. That case is stated by `Frontmatter.AddBeforeDelimiterTitles`; it covers the unread empty block, which is then fixed in one run.
- `Frontmatter.ParseBuiltBlock`, `Frontmatter.TitleLineTitles`, `Frontmatter.HomeLayoutTitles`, `Frontmatter.NoTitleLineUntitled`, `Frontmatter.StripBuiltBlock`, `Frontmatter.TitleAfterBuiltBlock` and `Frontmatter.HeadingAfterBuiltBlock` are stated only for pages written with line feeds (`---\n`, then the block's lines, then `\n---`, and `\n` after it for the strip) whose block lines hold no carriage return. The `\r\n` forms of the delimiters are read by the model (`Frontmatter.OpeningMarker`, `Frontmatter.FirstClose`), but these lemmas are not stated for them.
- `Frontmatter.HeadingAtStart` is stated only for pages that begin with the heading, and `Frontmatter.HeadingAfterBuiltBlock` only for a written block followed by blank lines and the heading. The search for a later heading is covered by the contracts of `Frontmatter.FirstHeadingLine` and `Frontmatter.HeadingCaptureStart`.

## Findings

| source | as written | input that shows it | evidently intended | confidence | as-written member | corrected member |
|---|---|---|---|---|---|---|
| scripts/fix-doc-quality.ts:159 | In a page that already has frontmatter, the title goes into the replacement string of `String.prototype.replace`, which expands `$$`, `$&`, `` $` `` and `$'` | the page `"---\ndescription: x\n---\n# Save $$\n"`: its heading gives the title `Save $$`, but the line written is `title: "Save $"` (`$&` inserts the delimiter. `$'` inserts the page's whole text after the delimiter into the title line (`Frontmatter.RestOfPageInserted`), so the page's fences appear twice. The title `$'` of ``"---\nx\n---\n# $'\n```a\n```\n```b"`` gives a page whose twelfth line, ```` ``` ````, is a bare opening, although the page had none before) | the title inserted as it is, as the branch for a page without frontmatter does at line 162 | not executed | `Frontmatter.AddFrontmatterTitleAsWritten`, with `Frontmatter.DoubledDollarCollapses` and `Frontmatter.RestOfPageInserted` | `Frontmatter.AddFrontmatterTitle` |

The rest of the model uses the corrected `Frontmatter.AddFrontmatterTitle`.
