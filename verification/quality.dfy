/**
 The fixer's driver (`runQualityFixes` of the fixer script) as a function
 from the two documentation trees to the rewritten English tree and the
 three counters.

 A tree is a map from paths relative to its root (segments separated by
 `/`) to file contents; the Japanese tree is `None` when its directory is
 missing, and a missing English directory is the empty tree.
 */
module QualityFixes {
  import opened Text
  import Fences
  import Frontmatter

  type Tree = map<string, string>

  // ---------------------------------------------------------------------
  // Which files are processed
  // ---------------------------------------------------------------------

  /** A path `collectMdFiles` reports: no segment starts with a dot (hidden
      entries are skipped, directories included) and the name ends in `.md`. */
  predicate IsMdPath(path: string) {
    var segments := Split(path, '/');
    && (forall i :: 0 <= i < |segments| ==> !StartsWith(segments[i], "."))
    && EndsWith(segments[|segments| - 1], ".md")
  }

  /** The files `collectMdFiles` finds under the root of `tree`. */
  function MdFiles(tree: Tree): set<string> {
    set p | p in tree && IsMdPath(p)
  }

  /** The walk reaches a file through the entries on its path, joined with
      `/`: it is collected exactly when it is in the tree, no entry on the way
      (directory or file) starts with a dot, and the file's name ends in `.md`. */
  lemma CollectedBySegments(tree: Tree, entries: seq<string>)
    requires |entries| >= 1
    requires forall i :: 0 <= i < |entries| ==> '/' !in entries[i]
    ensures var path := Join(entries, '/');
            path in MdFiles(tree)
            <==> && path in tree
                 && (forall i :: 0 <= i < |entries| ==> !StartsWith(entries[i], "."))
                 && EndsWith(entries[|entries| - 1], ".md")
  {
    SplitJoin(entries, '/');
  }

  // ---------------------------------------------------------------------
  // One English file
  // ---------------------------------------------------------------------

  /** The outcome for one file: the new content, and which fixes were made. */
  datatype FileOutcome = FileOutcome(content: string, codeFixed: bool, titleFixed: bool)

  /** Step (2): when the page has no title, the first heading's text, if it is
      not empty, is added as the title. */
  function TitleStep(c: string): (r: (string, bool))
    ensures r.1 <==> !TitleSettled(c)
    ensures !r.1 ==> r.0 == c
    ensures r.1 ==> !Frontmatter.HasFrontmatterTitle(c)
    ensures r.1 ==> exists t :: t != "" && Frontmatter.ExtractTitleFromHeading(c) == Some(t)
                                && r.0 == Frontmatter.AddFrontmatterTitle(c, t)
  {
    if Frontmatter.HasFrontmatterTitle(c) then (c, false)
    else
      match Frontmatter.ExtractTitleFromHeading(c)
      case None => (c, false)
      case Some(t) => if t == "" then (c, false) else (Frontmatter.AddFrontmatterTitle(c, t), true)
  }

  /** Steps (1) and (2) on one English file, with its Japanese counterpart as
      the reference when there is one. */
  function FixFile(en: string, ja: Option<string>): (r: FileOutcome)
    ensures r.codeFixed <==> Fences.HasBareOpening(Lines(en))
    ensures r.titleFixed <==> !TitleSettled(Fences.FixBareCodeBlocks(en, ja))
    ensures !r.codeFixed && !r.titleFixed ==> r.content == en
  {
    var fixed := Fences.FixBareCodeBlocks(en, ja);
    Fences.FixUnchangedIff(en, ja);
    var (out, titled) := TitleStep(fixed);
    FileOutcome(out, fixed != en, titled)
  }

  // ---------------------------------------------------------------------
  // The run
  // ---------------------------------------------------------------------

  datatype Counts = Counts(codeBlockFixes: nat, titleFixes: nat, parityFixes: nat)

  /** `SourceMissing` is the exit with status 1 when the Japanese directory is missing. */
  datatype RunOutcome = SourceMissing | Ran(en: Tree, counts: Counts)

  /** The reference for an English file: the Japanese file at the same path, if any. */
  function Reference(ja: Tree, path: string): Option<string> {
    if path in ja then Some(ja[path]) else None
  }

  /** The English tree after steps (1) and (2); other files are left alone. */
  function FixedTree(ja: Tree, en: Tree): (r: Tree)
    ensures r.Keys == en.Keys
  {
    map p | p in en :: if IsMdPath(p) then FixFile(en[p], Reference(ja, p)).content else en[p]
  }

  /** The Japanese files without an English counterpart: step (3) copies them. */
  function MissingInEn(ja: Tree, en: Tree): (missing: set<string>)
    ensures missing !! en.Keys
  {
    MdFiles(ja) - en.Keys
  }

  /** `tree` with the pages `missing` copied from `ja`. */
  function CopyPages(tree: Tree, ja: Tree, missing: set<string>): Tree
    requires missing <= ja.Keys
  {
    map p | p in tree.Keys + missing :: if p in tree then tree[p] else ja[p]
  }

  function CodeFixedFiles(ja: Tree, en: Tree): set<string> {
    set p | p in MdFiles(en) && FixFile(en[p], Reference(ja, p)).codeFixed
  }

  function TitleFixedFiles(ja: Tree, en: Tree): set<string> {
    set p | p in MdFiles(en) && FixFile(en[p], Reference(ja, p)).titleFixed
  }

  /** `runQualityFixes`: fix every English page, then copy the missing pages. */
  function RunQualityFixes(ja: Option<Tree>, en: Tree): (r: RunOutcome)
    ensures r.SourceMissing? <==> ja.None?
  {
    match ja
    case None => SourceMissing
    case Some(jaTree) =>
      var missing := MissingInEn(jaTree, en);
      var fixed := FixedTree(jaTree, en);
      Ran(CopyPages(fixed, jaTree, missing), Counts(|CodeFixedFiles(jaTree, en)|, |TitleFixedFiles(jaTree, en)|, |missing|))
  }

  // ---------------------------------------------------------------------
  // One file: properties
  // ---------------------------------------------------------------------

  /** The lines the title step puts before the page's lines are not fence lines. */
  lemma AddedLinesAreNotFences(t: string)
    ensures !Fences.IsFence("---") && !Fences.IsFence("") && !Fences.IsFence("---\r")
    ensures !Fences.IsFence(Frontmatter.TitleLine(t))
  {
    Fences.NotFenceByFirst("---");
    Fences.NotFenceByFirst("");
    Fences.NotFenceByFirst("---\r");
    Fences.NotFenceByFirst(Frontmatter.TitleLine(t));
  }

  /** Adding a title to a page without frontmatter puts four lines without
      fences in front of its lines. */
  lemma AddFreshKeepsFences(c: string, t: string)
    requires '\n' !in t && Frontmatter.OpeningMarker(c).None?
    ensures var added := Lines(Frontmatter.AddFrontmatterTitle(c, t));
            && (Fences.HasBareOpening(added) <==> Fences.HasBareOpening(Lines(c)))
            && |added| > |Lines(c)|
  {
    Frontmatter.LinesAfterAddFresh(c, t);
    AddedLinesAreNotFences(t);
    Fences.FenceFreePrefix(["---", Frontmatter.TitleLine(t), "---", ""], Lines(c));
  }

  /** Adding a title into a block replaces the opening line with two lines
      without fences. */
  lemma AddIntoBlockKeepsFences(c: string, t: string)
    requires '\n' !in t && Frontmatter.OpeningMarker(c).Some?
    ensures var added := Lines(Frontmatter.AddFrontmatterTitle(c, t));
            && (Fences.HasBareOpening(added) <==> Fences.HasBareOpening(Lines(c)))
            && |added| > |Lines(c)|
  {
    var m := Frontmatter.OpeningMarker(c).value;
    var rest := Lines(c[m..]);
    Frontmatter.LinesAfterAddIntoBlock(c, t);
    Frontmatter.LinesAfterOpening(c);
    AddedLinesAreNotFences(t);
    Fences.FenceFreePrefix(["---", Frontmatter.TitleLine(t)], rest);
    assert c[..m - 1] == "---" || c[..m - 1] == "---\r";
    Fences.FenceFreePrefix([c[..m - 1]], rest);
  }

  /** The title step keeps the page's bare openings, and adds lines when it
      changes the page. */
  lemma TitleStepKeepsFences(c: string)
    ensures Fences.HasBareOpening(Lines(TitleStep(c).0)) <==> Fences.HasBareOpening(Lines(c))
    ensures TitleStep(c).1 ==> |Lines(TitleStep(c).0)| > |Lines(c)|
  {
    if TitleStep(c).1 {
      var t := Frontmatter.ExtractTitleFromHeading(c).value;
      assert TitleStep(c).0 == Frontmatter.AddFrontmatterTitle(c, t);
      if Frontmatter.OpeningMarker(c).None? {
        AddFreshKeepsFences(c, t);
      } else {
        AddIntoBlockKeepsFences(c, t);
      }
    }
  }

  /** After both steps no block is left without a tag. */
  lemma FixFileLeavesNoBareOpening(en: string, ja: Option<string>)
    ensures !Fences.HasBareOpening(Lines(FixFile(en, ja).content))
  {
    var fixed := Fences.FixBareCodeBlocks(en, ja);
    Fences.NoBareOpeningAfterFix(en, ja);
    TitleStepKeepsFences(fixed);
  }

  /** A file is rewritten exactly when one of the two fixes was made. */
  lemma FixFileChangedIff(en: string, ja: Option<string>)
    ensures var r := FixFile(en, ja);
            r.content != en <==> r.codeFixed || r.titleFixed
  {
    var fixed := Fences.FixBareCodeBlocks(en, ja);
    TitleStepKeepsFences(fixed);
  }

  /** The code fix never makes or unmakes a frontmatter opening: the first
      line changes only when it is a bare opening, which stays a fence line. */
  lemma CodeFixKeepsOpeningMarker(en: string, ja: Option<string>)
    ensures Frontmatter.OpeningMarker(Fences.FixBareCodeBlocks(en, ja)).Some?
            <==> Frontmatter.OpeningMarker(en).Some?
  {
    var fixed := Fences.FixBareCodeBlocks(en, ja);
    Frontmatter.OpeningMarkerByLines(en);
    Frontmatter.OpeningMarkerByLines(fixed);
    AddedLinesAreNotFences("");
    if Fences.IsBareOpening(Lines(en), 0) {
      assert Lines(en)[0] != "---" && Lines(en)[0] != "---\r";
      assert Fences.IsFence(Lines(fixed)[0]);
    }
  }

  /** On a page without frontmatter, the title step makes a page it leaves alone. */
  lemma TitleStepIdempotentFresh(c: string)
    requires Frontmatter.OpeningMarker(c).None?
    ensures TitleStep(TitleStep(c).0) == (TitleStep(c).0, false)
  {
    if TitleStep(c).1 {
      var t := Frontmatter.ExtractTitleFromHeading(c).value;
      Frontmatter.ParseAfterAddFresh(c, t);
    }
  }

  /** A second run over a page without frontmatter, with the same reference,
      changes nothing and counts nothing. */
  lemma FixFileIdempotentFresh(en: string, ja: Option<string>)
    requires Frontmatter.OpeningMarker(en).None?
    ensures var once := FixFile(en, ja).content;
            FixFile(once, ja) == FileOutcome(once, false, false)
  {
    var fixed := Fences.FixBareCodeBlocks(en, ja);
    var once := FixFile(en, ja).content;
    CodeFixKeepsOpeningMarker(en, ja);
    TitleStepIdempotentFresh(fixed);
    FixFileLeavesNoBareOpening(en, ja);
    Fences.FixUnchangedIff(once, ja);
  }

  /** A page the title step leaves alone: it has a title, or no first
      heading with text to take one from. */
  predicate TitleSettled(c: string) {
    || Frontmatter.HasFrontmatterTitle(c)
    || Frontmatter.ExtractTitleFromHeading(c).None?
    || Frontmatter.ExtractTitleFromHeading(c).value == ""
  }

  /** A page neither fix applies to. */
  predicate PageIsClean(c: string) {
    !Fences.HasBareOpening(Lines(c)) && TitleSettled(c)
  }

  /** A file is left as it is, with nothing counted, exactly when it is clean. */
  lemma FixFileCleanIff(en: string, ja: Option<string>)
    ensures FixFile(en, ja) == FileOutcome(en, false, false) <==> PageIsClean(en)
  {
    Fences.FixUnchangedIff(en, ja);
  }

  // ---------------------------------------------------------------------
  // The run: properties
  // ---------------------------------------------------------------------

  /** A run keeps every file of the English tree and adds every page of the
      Japanese tree, and nothing else. */
  lemma RunKeys(ja: Tree, en: Tree)
    ensures RunQualityFixes(Some(ja), en).Ran?
    ensures RunQualityFixes(Some(ja), en).en.Keys == en.Keys + MdFiles(ja)
  {
  }

  /** Files of the English tree that are not pages are left as they are. */
  lemma RunLeavesOtherFiles(ja: Tree, en: Tree)
    ensures var out := RunQualityFixes(Some(ja), en).en;
            forall p :: p in en && !IsMdPath(p) ==> p in out && out[p] == en[p]
  {
    var out := RunQualityFixes(Some(ja), en).en;
    var fixed := FixedTree(ja, en);
    forall p | p in en && !IsMdPath(p)
      ensures p in out && out[p] == en[p]
    {
      assert out[p] == fixed[p];
    }
  }

  /** The files a run adds are Japanese pages, copied as they are. */
  lemma RunCopiesMissingPages(ja: Tree, en: Tree)
    ensures var out := RunQualityFixes(Some(ja), en).en;
            forall p :: p in out && p !in en ==> IsMdPath(p) && p in ja && out[p] == ja[p]
  {
    var out := RunQualityFixes(Some(ja), en).en;
    forall p | p in out && p !in en
      ensures IsMdPath(p) && p in ja && out[p] == ja[p]
    {
      assert p in MissingInEn(ja, en);
    }
  }

  /** Every page of the English tree is processed with its Japanese
      counterpart as reference, and afterwards has no untagged block. */
  lemma RunFixesEveryPage(ja: Tree, en: Tree)
    ensures var out := RunQualityFixes(Some(ja), en).en;
            forall p :: p in MdFiles(en) ==>
              && out[p] == FixFile(en[p], Reference(ja, p)).content
              && !Fences.HasBareOpening(Lines(out[p]))
  {
    forall p | p in MdFiles(en)
      ensures !Fences.HasBareOpening(Lines(FixFile(en[p], Reference(ja, p)).content))
    {
      FixFileLeavesNoBareOpening(en[p], Reference(ja, p));
    }
  }

  /** The English pages a run rewrites. */
  function ChangedPages(ja: Tree, en: Tree): set<string>
    requires RunQualityFixes(Some(ja), en).Ran?
  {
    var out := RunQualityFixes(Some(ja), en).en;
    set p | p in MdFiles(en) && out[p] != en[p]
  }

  /** The rewritten pages are exactly those counted by one of the two fixes. */
  lemma ChangedPagesAreCounted(ja: Tree, en: Tree)
    ensures RunQualityFixes(Some(ja), en).Ran?
    ensures ChangedPages(ja, en) == CodeFixedFiles(ja, en) + TitleFixedFiles(ja, en)
  {
    forall p | p in MdFiles(en)
      ensures var r := FixFile(en[p], Reference(ja, p));
              r.content != en[p] <==> r.codeFixed || r.titleFixed
    {
      FixFileChangedIff(en[p], Reference(ja, p));
    }
  }

  /** So each counter is at most the number of rewritten pages, which is at
      most the number of pages, and the copies are counted once each. */
  lemma RunCountsChangedPages(ja: Tree, en: Tree)
    ensures RunQualityFixes(Some(ja), en).Ran?
    ensures var counts := RunQualityFixes(Some(ja), en).counts;
            && counts.codeBlockFixes <= |ChangedPages(ja, en)| <= |MdFiles(en)|
            && counts.titleFixes <= |ChangedPages(ja, en)|
            && counts.parityFixes == |MdFiles(ja) - en.Keys|
  {
    var changed := ChangedPages(ja, en);
    ChangedPagesAreCounted(ja, en);
    SubsetCard(CodeFixedFiles(ja, en), changed);
    SubsetCard(TitleFixedFiles(ja, en), changed);
    SubsetCard(changed, MdFiles(en));
  }

  lemma {:induction false} SubsetCard<T>(a: set<T>, b: set<T>)
    requires a <= b
    ensures |a| <= |b|
    decreases |b|
  {
    if a != {} {
      var x :| x in a;
      SubsetCard(a - {x}, b - {x});
    }
  }

  /** Every English page is clean and every Japanese page already has an
      English counterpart. */
  predicate TreeIsClean(ja: Tree, en: Tree) {
    && (forall p :: p in MdFiles(en) ==> PageIsClean(en[p]))
    && MdFiles(ja) <= en.Keys
  }

  /** On a clean tree every page's outcome leaves it alone. */
  lemma CleanPagesUnchanged(ja: Tree, en: Tree)
    requires forall p :: p in MdFiles(en) ==> PageIsClean(en[p])
    ensures forall p :: p in MdFiles(en) ==>
              FixFile(en[p], Reference(ja, p)) == FileOutcome(en[p], false, false)
  {
    forall p | p in MdFiles(en)
      ensures FixFile(en[p], Reference(ja, p)) == FileOutcome(en[p], false, false)
    {
      FixFileCleanIff(en[p], Reference(ja, p));
    }
  }

  /** Pages whose outcome leaves them alone give an unchanged tree and no counts. */
  lemma UnchangedPagesNoFixes(ja: Tree, en: Tree)
    requires forall p :: p in MdFiles(en) ==>
               FixFile(en[p], Reference(ja, p)) == FileOutcome(en[p], false, false)
    ensures FixedTree(ja, en) == en
    ensures CodeFixedFiles(ja, en) == {} && TitleFixedFiles(ja, en) == {}
  {
  }

  lemma CleanTreeUnchanged(ja: Tree, en: Tree)
    requires TreeIsClean(ja, en)
    ensures RunQualityFixes(Some(ja), en) == Ran(en, Counts(0, 0, 0))
  {
    CleanPagesUnchanged(ja, en);
    UnchangedPagesNoFixes(ja, en);
    NothingMissing(ja, en);
  }

  lemma NothingMissing(ja: Tree, en: Tree)
    requires MdFiles(ja) <= en.Keys
    ensures MissingInEn(ja, en) == {}
    ensures RunQualityFixes(Some(ja), en).en == FixedTree(ja, en)
  {
  }

  lemma UnchangedTreeIsClean(ja: Tree, en: Tree)
    requires RunQualityFixes(Some(ja), en) == Ran(en, Counts(0, 0, 0))
    ensures TreeIsClean(ja, en)
  {
    assert MissingInEn(ja, en) == {};
    forall p | p in MdFiles(en)
      ensures PageIsClean(en[p])
    {
      assert p !in CodeFixedFiles(ja, en) && p !in TitleFixedFiles(ja, en);
      FixFileCleanIff(en[p], Reference(ja, p));
    }
  }

  /** A run changes nothing and counts nothing exactly when the tree is clean. */
  lemma RunUnchangedIff(ja: Tree, en: Tree)
    ensures RunQualityFixes(Some(ja), en) == Ran(en, Counts(0, 0, 0)) <==> TreeIsClean(ja, en)
  {
    if TreeIsClean(ja, en) {
      CleanTreeUnchanged(ja, en);
    }
    if RunQualityFixes(Some(ja), en) == Ran(en, Counts(0, 0, 0)) {
      UnchangedTreeIsClean(ja, en);
    }
  }

  /** After a run every Japanese page has an English counterpart, so a second
      run copies nothing. */
  lemma SecondRunCopiesNothing(ja: Tree, en: Tree)
    ensures var out := RunQualityFixes(Some(ja), en).en;
            RunQualityFixes(Some(ja), out).counts.parityFixes == 0
  {
    RunKeys(ja, en);
    var out := RunQualityFixes(Some(ja), en).en;
    assert MissingInEn(ja, out) == {};
  }
}
