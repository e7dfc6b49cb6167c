/**
 The driver as the script writes it: one pass over the English pages that
 rewrites them and counts the fixes, then one pass over the Japanese pages
 that copies those without an English counterpart. The passes are shown to
 compute `QualityFixes.RunQualityFixes`.
 */
module Runner {
  import opened Text
  import opened QualityFixes

  /** `files` lists the pages of `tree` once each, as `collectMdFiles` does. */
  predicate Enumerates(files: seq<string>, tree: Tree) {
    && (forall p :: p in files ==> p in MdFiles(tree))
    && (forall p :: p in MdFiles(tree) ==> p in files)
    && (forall i, j :: 0 <= i < j < |files| ==> files[i] != files[j])
  }

  /** The listed entries that `keep` accepts. */
  function Filter(files: seq<string>, keep: string -> bool): set<string> {
    set p | p in files && keep(p)
  }

  /** One more listed entry joins the filtered set exactly when it is accepted. */
  lemma FilterStep(files: seq<string>, keep: string -> bool, i: nat)
    requires i < |files|
    ensures Filter(files[..i + 1], keep)
            == Filter(files[..i], keep) + (if keep(files[i]) then {files[i]} else {})
  {
    assert files[..i + 1] == files[..i] + [files[i]];
  }

  /** The filtered prefix grows by one exactly when the next entry is new and accepted. */
  lemma FilterCount(files: seq<string>, keep: string -> bool, i: nat)
    requires i < |files|
    requires forall k :: 0 <= k < i ==> files[k] != files[i]
    ensures |Filter(files[..i + 1], keep)|
            == |Filter(files[..i], keep)| + (if keep(files[i]) then 1 else 0)
  {
    FilterStep(files, keep, i);
    assert files[i] !in Filter(files[..i], keep);
  }

  /** The pages among `files` whose outcome under `fix` has the code fix,
      and those whose outcome has the title fix. */
  function CodeKeep(en: Tree, fix: (string, string) -> FileOutcome): string -> bool {
    p => p in en && fix(p, en[p]).codeFixed
  }

  function TitleKeep(en: Tree, fix: (string, string) -> FileOutcome): string -> bool {
    p => p in en && fix(p, en[p]).titleFixed
  }

  /** `tree` is `en` with the files in `done` replaced by their fixed content. */
  predicate FixedUpTo(tree: Tree, en: Tree, done: seq<string>, fix: (string, string) -> FileOutcome) {
    && tree.Keys == en.Keys
    && forall p :: p in en ==> tree[p] == if p in done then fix(p, en[p]).content else en[p]
  }

  lemma FixedUpToStep(tree: Tree, en: Tree, files: seq<string>, fix: (string, string) -> FileOutcome, i: nat)
    requires i < |files| && files[i] in en
    requires FixedUpTo(tree, en, files[..i], fix)
    ensures FixedUpTo(tree[files[i] := fix(files[i], en[files[i]]).content], en, files[..i + 1], fix)
  {
    assert files[..i + 1] == files[..i] + [files[i]];
  }

  /** The loop of the English pass, for any per-file fix: the listed files
      are replaced by their fixed content, and the counters count the
      listed files each fix was made to. */
  method ProcessPages(en: Tree, files: seq<string>, fix: (string, string) -> FileOutcome)
    returns (tree: Tree, codeBlockFixes: nat, titleFixes: nat)
    requires forall i :: 0 <= i < |files| ==> files[i] in en
    requires forall i, j :: 0 <= i < j < |files| ==> files[i] != files[j]
    ensures tree.Keys == en.Keys
    ensures forall p :: p in en ==>
              tree[p] == if p in files then fix(p, en[p]).content else en[p]
    ensures codeBlockFixes == |Filter(files, CodeKeep(en, fix))|
    ensures titleFixes == |Filter(files, TitleKeep(en, fix))|
  {
    tree := en;
    codeBlockFixes, titleFixes := 0, 0;
    for i := 0 to |files|
      invariant FixedUpTo(tree, en, files[..i], fix)
      invariant codeBlockFixes == |Filter(files[..i], CodeKeep(en, fix))|
      invariant titleFixes == |Filter(files[..i], TitleKeep(en, fix))|
    {
      var path := files[i];
      var outcome := fix(path, en[path]);
      FilterCount(files, CodeKeep(en, fix), i);
      FilterCount(files, TitleKeep(en, fix), i);
      FixedUpToStep(tree, en, files, fix, i);
      if outcome.codeFixed {
        codeBlockFixes := codeBlockFixes + 1;
      }
      if outcome.titleFixed {
        titleFixes := titleFixes + 1;
      }
      tree := tree[path := outcome.content];
    }
    assert files[..|files|] == files;
  }

  /** The per-file fix of the script: both steps, with the Japanese file at
      the same path as reference. */
  function PageFix(ja: Tree): (string, string) -> FileOutcome {
    (p, c) => FixFile(c, Reference(ja, p))
  }

  lemma EnumeratedInTree(files: seq<string>, tree: Tree)
    requires Enumerates(files, tree)
    ensures forall i :: 0 <= i < |files| ==> files[i] in tree
  {
    forall i | 0 <= i < |files|
      ensures files[i] in tree
    {
      assert files[i] in MdFiles(tree);
    }
  }

  /** Fixing exactly the listed pages gives the fixed tree. */
  lemma ListedPagesGiveFixedTree(ja: Tree, en: Tree, enFiles: seq<string>, tree: Tree)
    requires Enumerates(enFiles, en)
    requires tree.Keys == en.Keys
    requires forall p :: p in en ==>
               tree[p] == if p in enFiles then PageFix(ja)(p, en[p]).content else en[p]
    ensures tree == FixedTree(ja, en)
  {
    forall p | p in en
      ensures tree[p] == FixedTree(ja, en)[p]
    {
      assert p in enFiles <==> p in MdFiles(en);
    }
  }

  /** Counting over the listed pages counts over all pages. */
  lemma ListedPagesGiveCounts(ja: Tree, en: Tree, enFiles: seq<string>)
    requires Enumerates(enFiles, en)
    ensures Filter(enFiles, CodeKeep(en, PageFix(ja))) == CodeFixedFiles(ja, en)
    ensures Filter(enFiles, TitleKeep(en, PageFix(ja))) == TitleFixedFiles(ja, en)
  {
  }

  /** The English pass of the script: every listed page is fixed with its
      Japanese counterpart as reference. */
  method FixPages(ja: Tree, en: Tree, enFiles: seq<string>)
    returns (tree: Tree, codeBlockFixes: nat, titleFixes: nat)
    requires Enumerates(enFiles, en)
    ensures tree == FixedTree(ja, en)
    ensures codeBlockFixes == |CodeFixedFiles(ja, en)|
    ensures titleFixes == |TitleFixedFiles(ja, en)|
  {
    EnumeratedInTree(enFiles, en);
    tree, codeBlockFixes, titleFixes := ProcessPages(en, enFiles, PageFix(ja));
    ListedPagesGiveFixedTree(ja, en, enFiles, tree);
    ListedPagesGiveCounts(ja, en, enFiles);
  }

  /** The entries a tree lacks. */
  function Absent(tree: Tree): string -> bool {
    p => p !in tree
  }

  /** `out` is `tree` with the files in `done` it lacked copied from `ja`. */
  predicate CopiedUpTo(out: Tree, tree: Tree, ja: Tree, done: seq<string>) {
    && out.Keys == tree.Keys + Filter(done, Absent(tree))
    && forall p :: p in out ==> if p in tree then out[p] == tree[p] else p in ja && out[p] == ja[p]
  }

  lemma CopiedUpToStep(out: Tree, tree: Tree, ja: Tree, files: seq<string>, j: nat)
    requires j < |files| && files[j] in ja
    requires forall k :: 0 <= k < j ==> files[k] != files[j]
    requires CopiedUpTo(out, tree, ja, files[..j])
    ensures files[j] in out <==> files[j] in tree
    ensures files[j] in out ==> CopiedUpTo(out, tree, ja, files[..j + 1])
    ensures files[j] !in out ==> CopiedUpTo(out[files[j] := ja[files[j]]], tree, ja, files[..j + 1])
  {
    FilterStep(files, Absent(tree), j);
    assert files[j] !in Filter(files[..j], Absent(tree));
  }

  /** The parity pass for any listed files: each listed file the tree lacks
      is copied, and counted. */
  method CopyMissing(ja: Tree, tree: Tree, files: seq<string>) returns (out: Tree, parityFixes: nat)
    requires forall i :: 0 <= i < |files| ==> files[i] in ja
    requires forall i, j :: 0 <= i < j < |files| ==> files[i] != files[j]
    ensures CopiedUpTo(out, tree, ja, files)
    ensures parityFixes == |Filter(files, Absent(tree))|
  {
    out := tree;
    parityFixes := 0;
    for j := 0 to |files|
      invariant CopiedUpTo(out, tree, ja, files[..j])
      invariant parityFixes == |Filter(files[..j], Absent(tree))|
    {
      var path := files[j];
      CopiedUpToStep(out, tree, ja, files, j);
      FilterCount(files, Absent(tree), j);
      if path !in out {
        out := out[path := ja[path]];
        parityFixes := parityFixes + 1;
      }
    }
    assert files[..|files|] == files;
  }

  /** The listed Japanese pages an English tree lacks are the missing pages. */
  lemma ListedAbsentAreMissing(ja: Tree, en: Tree, jaFiles: seq<string>, tree: Tree)
    requires Enumerates(jaFiles, ja)
    requires tree.Keys == en.Keys
    ensures Filter(jaFiles, Absent(tree)) == MissingInEn(ja, en)
  {
  }

  /** Copying the listed files a tree lacks is copying exactly those files. */
  lemma CopiedAreCopyPages(tree: Tree, ja: Tree, files: seq<string>, out: Tree)
    requires forall i :: 0 <= i < |files| ==> files[i] in ja
    requires CopiedUpTo(out, tree, ja, files)
    ensures Filter(files, Absent(tree)) <= ja.Keys
    ensures out == CopyPages(tree, ja, Filter(files, Absent(tree)))
  {
  }

  /** `runQualityFixes` with its two loops, given the page lists
      `collectMdFiles` returns for the two trees; it computes the run. */
  method RunQualityFixesLoop(ja: Option<Tree>, en: Tree, jaFiles: seq<string>, enFiles: seq<string>)
    returns (r: RunOutcome)
    requires ja.Some? ==> Enumerates(jaFiles, ja.value)
    requires Enumerates(enFiles, en)
    ensures r == RunQualityFixes(ja, en)
  {
    if ja.None? {
      return SourceMissing;
    }
    var jaTree := ja.value;
    var tree, codeBlockFixes, titleFixes := FixPages(jaTree, en, enFiles);
    EnumeratedInTree(jaFiles, jaTree);
    var out, parityFixes := CopyMissing(jaTree, tree, jaFiles);
    ListedAbsentAreMissing(jaTree, en, jaFiles, tree);
    CopiedAreCopyPages(tree, jaTree, jaFiles, out);
    r := Ran(out, Counts(codeBlockFixes, titleFixes, parityFixes));
  }
}
