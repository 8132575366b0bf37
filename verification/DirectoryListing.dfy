/** A directory's tree: whole when it fits, with child blocks elided from the last, or its level cut to a page. */
module DirectoryListing {
  import opened Text
  import opened Decimal
  import opened ModelText
  import opened DirectoryPage

  /** The rendered lines of a child directory, and how many entries it has. */
  datatype Block = Block(childLines: seq<Text>, totalCount: nat)

  /** An entry of the requested level, as its line; a directory that was read has a block. */
  datatype Root = Root(line: Text, block: Option<Block>)

  function Marker(totalCount: nat): seq<Text> {
    if totalCount > 0 then [Lit("    ") + [0x2026, SPACE] + Digits(totalCount) + Lit(" entries")] else []
  }

  predicate HasBlock(root: Root) {
    root.block.Some? && root.block.value.childLines != []
  }

  function RootLines(root: Root, elided: bool): seq<Text> {
    [root.line] + if root.block == None then []
                  else if elided && HasBlock(root) then Marker(root.block.value.totalCount)
                  else root.block.value.childLines
  }

  /** The tree with the blocks from `cutoff` on elided. */
  function TreeLines(roots: seq<Root>, cutoff: nat): seq<Text> {
    if roots == [] then []
    else TreeLines(roots[..|roots| - 1], cutoff) + RootLines(roots[|roots| - 1], |roots| - 1 >= cutoff)
  }

  function LevelLines(roots: seq<Root>): (lines: seq<Text>)
    ensures |lines| == |roots| && forall k :: 0 <= k < |roots| ==> lines[k] == roots[k].line
  {
    seq(|roots|, k requires 0 <= k < |roots| => roots[k].line)
  }

  function TreePage(header: Text, roots: seq<Root>, cutoff: nat, truncated: bool): Listing {
    Listing(header, Content(header, TreeLines(roots, cutoff)), truncated, None, |roots|)
  }

  predicate Fits(page: Listing, cap: int) {
    ListingWidth(page) <= cap
  }

  /** From which entry on blocks are elided: the last one it takes for the tree to fit, or the first of all. */
  function ElideFrom(header: Text, roots: seq<Root>, cutoff: nat, cap: int): (c: nat)
    requires cutoff <= |roots|
    ensures c <= cutoff && (c > 0 ==> Fits(TreePage(header, roots, c, true), cap))
  {
    if cutoff == 0 then 0
    else if HasBlock(roots[cutoff - 1]) && Fits(TreePage(header, roots, cutoff - 1, true), cap) then cutoff - 1
    else ElideFrom(header, roots, cutoff - 1, cap)
  }

  function FitTree(header: Text, roots: seq<Root>, cap: int): Option<Listing> {
    var whole, elided := TreePage(header, roots, |roots|, false),
      TreePage(header, roots, ElideFrom(header, roots, |roots|, cap), true);
    if Fits(whole, cap) then Some(whole) else if Fits(elided, cap) then Some(elided) else None
  }

  /** The first `count` entries of the level, their blocks elided, continued after them. */
  function LevelPage(header: Text, roots: seq<Root>, count: nat): Listing
    requires count <= |roots|
  {
    Listing(header, Content(header, TreeLines(roots[..count], 0)), true, Some(count), |roots|)
  }

  function HeaderPage(header: Text, roots: seq<Root>): Listing {
    Listing(header, Content(header, []), true, Some(0), |roots|)
  }

  /**
   When not even the first entry fits: the header alone, if the level can be read on flat, and else that flat
   page.
   */
  function PageBeforeFirstEntry(header: Text, roots: seq<Root>, cap: int): Outcome {
    var flat := FlatPage(header, LevelLines(roots), 0, |roots|, cap);
    if flat.TooLarge? then TooLarge
    else if Fits(HeaderPage(header, roots), cap) then Listed(HeaderPage(header, roots), 0)
    else flat
  }

  function TruncateFrom(header: Text, roots: seq<Root>, index: nat, cap: int): Outcome
    requires index <= |roots|
    decreases |roots| - index
  {
    if index == |roots| then Listed(TreePage(header, roots, 0, false), |roots|)
    else if Fits(LevelPage(header, roots, index + 1), cap) then TruncateFrom(header, roots, index + 1, cap)
    else if index == 0 then PageBeforeFirstEntry(header, roots, cap)
    else Listed(LevelPage(header, roots, index), index)
  }

  function RenderTree(header: Text, roots: seq<Root>, cap: int): Outcome {
    if roots == [] then Listed(Listing(header, header + [LF] + Lit("(empty directory)") + [LF], false, None, 0), 0)
    else
      var fitted := FitTree(header, roots, cap);
      if fitted.Some? then Listed(fitted.value, |roots|) else TruncateFrom(header, roots, 0, cap)
  }

  // The loops.

  /** Elides child blocks from the last until the tree fits. */
  method ElideChildBlocks(header: Text, roots: seq<Root>, cap: int) returns (page: Listing)
    ensures page == TreePage(header, roots, ElideFrom(header, roots, |roots|, cap), true)
  {
    hide TreePage, Fits;
    var k := |roots|;
    while k > 0
      invariant 0 <= k <= |roots| && ElideFrom(header, roots, |roots|, cap) == ElideFrom(header, roots, k, cap)
    {
      k := k - 1;
      if HasBlock(roots[k]) {
        page := TreePage(header, roots, k, true);
        if Fits(page, cap) { return; }
      }
    }
    page := TreePage(header, roots, 0, true);
  }

  method TruncateRequestedLevel(header: Text, roots: seq<Root>, cap: int) returns (r: Outcome)
    ensures r == TruncateFrom(header, roots, 0, cap)
  {
    hide Fits, PageBeforeFirstEntry, Content;
    var lines: seq<Text> := [];
    var index := 0;
    while index < |roots|
      invariant 0 <= index <= |roots| && lines == TreeLines(roots[..index], 0)
      invariant TruncateFrom(header, roots, 0, cap) == TruncateFrom(header, roots, index, cap)
    {
      var added := lines + RootLines(roots[index], true);
      assert roots[..index + 1][..index] == roots[..index];
      assert added == TreeLines(roots[..index + 1], 0);
      if !Fits(Listing(header, Content(header, added), true, Some(index + 1), |roots|), cap) {
        if index == 0 { return PageBeforeFirstEntry(header, roots, cap); }
        return Listed(Listing(header, Content(header, lines), true, Some(index), |roots|), index);
      }
      lines, index := added, index + 1;
    }
    assert roots[..index] == roots;
    return Listed(Listing(header, Content(header, lines), false, None, |roots|), |roots|);
  }

  // What an untruncated listing shows.

  /** A tree that could not be fitted does not fit with every block elided. */
  lemma UnfittedTree(header: Text, roots: seq<Root>, cap: int)
    requires roots != [] && FitTree(header, roots, cap) == None
    ensures !Fits(TreePage(header, roots, 0, true), cap) && !Fits(TreePage(header, roots, |roots|, false), cap)
  {
    hide Fits, TreePage, ElideFrom;
  }

  /** A continuation only adds to the width. */
  lemma ContinuedIsWider(header: Text, roots: seq<Root>)
    ensures ListingWidth(LevelPage(header, roots, |roots|)) >= ListingWidth(TreePage(header, roots, 0, true))
  {
    hide Notice, Content;
    assert roots[..|roots|] == roots;
  }

  /** After the tree could not be fitted, the level is always cut somewhere: its loop never runs out. */
  lemma {:induction false} LevelIsCut(header: Text, roots: seq<Root>, index: nat, cap: int)
    requires roots != [] && FitTree(header, roots, cap) == None && index < |roots|
    ensures match TruncateFrom(header, roots, index, cap)
            case TooLarge => index == 0
            case Listed(page, entries) =>
              || (index == 0 && TruncateFrom(header, roots, index, cap) == PageBeforeFirstEntry(header, roots, cap)
                && !Fits(LevelPage(header, roots, 1), cap))
              || (0 < entries < |roots| && page == LevelPage(header, roots, entries) && page.truncated)
    decreases |roots| - index
  {
    hide ListingWidth, Content, PageBeforeFirstEntry;
    UnfittedTree(header, roots, cap);
    ContinuedIsWider(header, roots);
    if Fits(LevelPage(header, roots, index + 1), cap) {
      assert index + 1 < |roots|;
      LevelIsCut(header, roots, index + 1, cap);
    }
  }

  /**
   The corner in which child blocks go unsaid: the level fits flat, but neither with its markers nor its header
   with a continuation.
   */
  predicate SilentlyFlat(header: Text, roots: seq<Root>, cap: int) {
    && roots != [] && FitTree(header, roots, cap) == None
    && !Fits(LevelPage(header, roots, 1), cap) && !Fits(HeaderPage(header, roots), cap)
    && Fits(WholeWindow(header, LevelLines(roots), 0, |roots|), cap)
  }

  /**
   An untruncated tree listing shows every entry of the level; and it shows every child block that was
   assembled exactly outside that one corner.
   */
  lemma UntruncatedShowsAll(header: Text, roots: seq<Root>, cap: int)
    requires roots != [] && LF !in header && (forall k :: 0 <= k < |roots| ==> IsLine(roots[k].line))
    requires RenderTree(header, roots, cap).Listed? && !RenderTree(header, roots, cap).page.truncated
    ensures var r := RenderTree(header, roots, cap);
            && r.entries == |roots|
            && (r.page.content == Content(header, TreeLines(roots, |roots|)) <==> !SilentlyFlat(header, roots, cap))
            && (SilentlyFlat(header, roots, cap) ==> r.page.content == Content(header, LevelLines(roots)))
  {
    hide ListingWidth, Content, TruncateFrom, FlatPage;
    if FitTree(header, roots, cap) == None {
      LevelIsCut(header, roots, 0, cap);
      UnfittedTree(header, roots, cap);
      var lines := LevelLines(roots);
      LargestPage(header, lines, 0, |roots|, cap);
      assert lines[..|lines|] == lines;
      SameContentSameWidth(WholeWindow(header, lines, 0, |roots|), TreePage(header, roots, |roots|, false));
    }
  }

  lemma SameContentSameWidth(a: Listing, b: Listing)
    requires a.nextOffset == None && b.nextOffset == None
    ensures a.content == b.content ==> ListingWidth(a) == ListingWidth(b)
  {
  }

  lemma FlatWidth(header: Text, line: Text)
    ensures ListingWidth(WholeWindow(header, [line], 0, 1)) == |header| + 1 + |line|
  {
    hide Notice, Content;
    var lines := [line];
    assert lines[..0] == [] && lines[..1] == lines && [header] + [] == [header];
    BodyOfContent(header, lines);
    JoinedWidth(header, lines, 0);
  }

  lemma HeaderWidth(header: Text, root: Root)
    ensures ListingWidth(HeaderPage(header, [root])) > |header| + 31
  {
    hide Notice, Content;
    assert [header] + [] == [header];
    BodyOfContent(header, []);
    NoticeIsLong(header);
  }

  lemma OneRoot(root: Root, cutoff: nat)
    ensures TreeLines([root], cutoff) == RootLines(root, cutoff == 0)
  {
    var roots := [root];
    assert roots[..0] == [] && TreeLines([], cutoff) == [];
    hide RootLines;
  }

  lemma TreeWidth(header: Text, root: Root, cutoff: nat, truncated: bool)
    requires HasBlock(root) && root.block.value.totalCount > 0
    ensures ListingWidth(TreePage(header, [root], cutoff, truncated)) > |header| + 1 + |root.line|
  {
    hide RootLines, Content, Body, TreeLines;
    OneRoot(root, cutoff);
    WiderBlock(header, root, cutoff == 0);
  }

  /**
   One directory with something in it, under a cap that just admits its name: an untruncated listing without
   its block.
   */
  lemma BlockCanGoUnsaid(header: Text, root: Root)
    requires HasBlock(root) && root.block.value.totalCount > 0 && LF !in header && IsLine(root.line)
      && |root.line| <= 30
    ensures SilentlyFlat(header, [root], ListingWidth(WholeWindow(header, [root.line], 0, 1)))
  {
    hide ListingWidth, TreePage, HeaderPage, LevelPage, WholeWindow;
    var roots := [root];
    assert LevelLines(roots) == [root.line];
    FlatWidth(header, root.line);
    HeaderWidth(header, root);
    var cap := |header| + 1 + |root.line|;
    TreeWidth(header, root, 1, false);
    TreeWidth(header, root, ElideFrom(header, roots, 1, cap), true);
    TreeWidth(header, root, 0, true);
    ContinuedIsWider(header, roots);
  }

  /** A root with its block, or its marker, is wider than its line alone. */
  lemma WiderBlock(header: Text, root: Root, elided: bool)
    requires HasBlock(root) && root.block.value.totalCount > 0
    ensures |Body(Content(header, RootLines(root, elided)))| > |header| + 1 + |root.line|
  {
    var lines := RootLines(root, elided);
    assert |lines| >= 2 && lines[0] == root.line;
    hide Marker;
    BodyOfContent(header, lines);
    JoinIsLong(header, lines);
  }

  lemma {:induction false} JoinIsLong(header: Text, lines: seq<Text>)
    requires |lines| >= 2
    ensures |Join([header] + lines, LF)| > |header| + 1 + |lines[0]|
    decreases |lines|
  {
    if |lines| == 2 {
      assert lines[..0] == [] && lines[..2] == lines && [header] + [] == [header];
      JoinedWidth(header, lines, 0);
      JoinedWidth(header, lines, 1);
    } else {
      var front := lines[..|lines| - 1];
      JoinIsLong(header, front);
      JoinedWidth(header, lines, |lines| - 1);
      assert lines[..|lines| - 1 + 1] == lines;
    }
  }

  lemma NoticeIsLong(header: Text)
    ensures |Notice(header, 1, 0)| > 31 && |Notice(header, 1, 1)| > 31
  {
  }

  // Reading on from a tree.

  /** The level's entries a first page of the tree stands for, and where it continues. */
  lemma TreeContinues(header: Text, roots: seq<Root>, cap: int)
    requires roots != [] && LF !in header && (forall k :: 0 <= k < |roots| ==> IsLine(roots[k].line))
    requires RenderTree(header, roots, cap).Listed?
    ensures var r := RenderTree(header, roots, cap);
            && r.entries <= |roots|
            && r.page.nextOffset == (if r.entries == |roots| then None else Some(r.entries))
            && Holds(r.page.content, header, roots, r.entries)
  {
    hide ListingWidth, Content, FlatPage, TreeLines, FitTree, TruncateFrom;
    if FitTree(header, roots, cap) == None {
      CutContinues(header, roots, cap);
    } else {
      FittedContinues(header, roots, cap);
    }
  }

  /** The content is that of the level's first entries, or of a tree of them. */
  ghost predicate Holds(content: Text, header: Text, roots: seq<Root>, entries: nat)
    requires entries <= |roots|
  {
    || content == Content(header, LevelLines(roots)[..entries])
    || exists c :: content == Content(header, TreeLines(roots[..entries], c))
  }

  lemma CutContinues(header: Text, roots: seq<Root>, cap: int)
    requires roots != [] && LF !in header && (forall k :: 0 <= k < |roots| ==> IsLine(roots[k].line))
    requires FitTree(header, roots, cap) == None && TruncateFrom(header, roots, 0, cap).Listed?
    ensures var r := TruncateFrom(header, roots, 0, cap);
            && r.entries <= |roots| && r.page.nextOffset == (if r.entries == |roots| then None else Some(r.entries))
            && Holds(r.page.content, header, roots, r.entries)
  {
    hide ListingWidth, Content, FlatPage, TreeLines, FitTree, TruncateFrom;
    LevelIsCut(header, roots, 0, cap);
    var r, lines := TruncateFrom(header, roots, 0, cap), LevelLines(roots);
    LargestPage(header, lines, 0, |roots|, cap);
    assert lines[..|lines|] == lines && lines[..0] == [];
    if r.page == LevelPage(header, roots, r.entries) {
      assert r.page.content == Content(header, TreeLines(roots[..r.entries], 0));
    }
  }

  lemma FittedContinues(header: Text, roots: seq<Root>, cap: int)
    requires roots != [] && FitTree(header, roots, cap).Some?
    ensures var page := FitTree(header, roots, cap).value;
            page.nextOffset == None && Holds(page.content, header, roots, |roots|)
  {
    hide ListingWidth, Content, TreeLines;
    assert roots[..|roots|] == roots;
    var c := if Fits(TreePage(header, roots, |roots|, false), cap) then |roots|
      else ElideFrom(header, roots, |roots|, cap);
    assert FitTree(header, roots, cap).value.content == Content(header, TreeLines(roots[..|roots|], c));
  }

  /** A tree's first page and the flat pages after it list every entry of the level once, in order. */
  lemma TreeThenPages(header: Text, roots: seq<Root>, cap: int)
    requires roots != [] && LF !in header && (forall k :: 0 <= k < |roots| ==> IsLine(roots[k].line))
    requires RenderTree(header, roots, cap).Listed?
    requires forall i :: 0 <= i < |roots| ==> FitsAlone(header, LevelLines(roots), i, cap)
    ensures var k := RenderTree(header, roots, cap).entries;
            k <= |roots| && LevelLines(roots)[..k] + Follow(header, LevelLines(roots), k, cap) == LevelLines(roots)
  {
    hide RenderTree, Follow, FitsAlone;
    TreeContinues(header, roots, cap);
    var k, lines := RenderTree(header, roots, cap).entries, LevelLines(roots);
    PagesListEveryEntry(header, lines, k, cap);
    assert lines[..k] + lines[k..] == lines;
  }
}
