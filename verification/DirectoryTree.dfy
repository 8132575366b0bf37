/** What a tree listing shows of its entries and their children, and how little it leaves out to fit. */
module DirectoryTree {
  import opened Text
  import opened Decimal
  import opened SelectorText
  import opened ModelText
  import opened DirectoryPage
  import opened DirectoryListing

  /** The lines of one entry: its own and its children's, or a marker that counts them, if there are any. */
  ghost predicate ShowsRoot(lines: seq<Text>, root: Root, elided: bool) {
    if root.block == None then lines == [root.line]
    else if !elided || root.block.value.childLines == [] then lines == [root.line] + root.block.value.childLines
    else if root.block.value.totalCount == 0 then lines == [root.line]
    else exists count: Text :: Counts(lines, root, count)
  }

  /** The marker under a directory counts all its entries. */
  ghost predicate Counts(lines: seq<Text>, root: Root, count: Text)
    requires root.block.Some?
  {
    && lines == [root.line, Lit("    ") + [0x2026] + Lit(" ") + count + Lit(" entries")]
    && AllDigits(count) && Value(count) == root.block.value.totalCount
  }

  lemma RootShown(root: Root, elided: bool)
    ensures ShowsRoot(RootLines(root, elided), root, elided)
  {
    if elided && HasBlock(root) && root.block.value.totalCount > 0 {
      var count := Digits(root.block.value.totalCount);
      ValueOfDigits(root.block.value.totalCount);
      assert Lit(" ") == [SPACE];
      var indent := Lit("    ");
      assert indent + [0x2026, SPACE] == indent + [0x2026] + [SPACE];
      hide Lit;
      var marker := indent + [0x2026, SPACE] + count + Lit(" entries");
      assert RootLines(root, elided) == [root.line] + [marker];
      assert Counts(RootLines(root, elided), root, count);
    }
  }

  /** The tree's text: its entries in order, each as shown, those from `cutoff` on without their blocks. */
  lemma {:induction false} TreeShows(roots: seq<Root>, cutoff: nat) returns (shown: seq<seq<Text>>)
    ensures |shown| == |roots| && TreeLines(roots, cutoff) == Concat(shown)
    ensures forall k :: 0 <= k < |roots| ==> ShowsRoot(shown[k], roots[k], k >= cutoff)
    decreases |roots|
  {
    hide ShowsRoot, RootLines;
    if roots == [] {
      shown := [];
    } else {
      var n := |roots| - 1;
      var front := TreeShows(roots[..n], cutoff);
      var last := RootLines(roots[n], n >= cutoff);
      RootShown(roots[n], n >= cutoff);
      shown := front + [last];
      assert shown[..n] == front;
    }
  }

  /** The tree with the blocks from `c` on elided fits, and `c` is an entry that has one. */
  predicate FitsFrom(header: Text, roots: seq<Root>, c: nat, cap: int)
    requires c < |roots|
  {
    HasBlock(roots[c]) && Fits(TreePage(header, roots, c, true), cap)
  }

  lemma {:induction false} ElidesFewest(header: Text, roots: seq<Root>, cutoff: nat, cap: int)
    requires cutoff <= |roots|
    ensures var c := ElideFrom(header, roots, cutoff, cap);
            && (forall later :: c <= later < cutoff && FitsFrom(header, roots, later, cap) ==> later == c)
            && (c == 0 || (c < cutoff && FitsFrom(header, roots, c, cap)))
    decreases cutoff
  {
    hide TreePage, Fits;
    if cutoff > 0 && !FitsFrom(header, roots, cutoff - 1, cap) {
      ElidesFewest(header, roots, cutoff - 1, cap);
    }
  }

  /** The level's first `n` entries, their blocks elided, fit with their continuation, and so do any fewer. */
  ghost predicate FitsUpTo(header: Text, roots: seq<Root>, n: nat, cap: int)
    requires n <= |roots|
  {
    forall k :: 1 <= k <= n ==> Fits(LevelPage(header, roots, k), cap)
  }

  lemma {:induction false} KeepsMost(header: Text, roots: seq<Root>, index: nat, cap: int)
    requires index < |roots| && FitTree(header, roots, cap) == None && FitsUpTo(header, roots, index, cap)
    requires Fits(LevelPage(header, roots, 1), cap)
    ensures exists n :: 0 < n < |roots| && FitsUpTo(header, roots, n, cap)
              && !Fits(LevelPage(header, roots, n + 1), cap)
              && TruncateFrom(header, roots, index, cap) == Listed(LevelPage(header, roots, n), n)
    decreases |roots| - index
  {
    hide ListingWidth, Content, PageBeforeFirstEntry;
    UnfittedTree(header, roots, cap);
    ContinuedIsWider(header, roots);
    if Fits(LevelPage(header, roots, index + 1), cap) {
      assert index + 1 < |roots|;
      KeepsMost(header, roots, index + 1, cap);
    }
  }

  lemma {:induction false} NothingToElide(roots: seq<Root>, c: nat, cutoff: nat)
    requires c <= cutoff && forall k :: c <= k < cutoff && k < |roots| ==> !HasBlock(roots[k])
    ensures TreeLines(roots, c) == TreeLines(roots, cutoff)
    decreases |roots|
  {
    if roots != [] {
      NothingToElide(roots[..|roots| - 1], c, cutoff);
    }
  }

  /** Where no elision of a block makes the tree fit, eliding all of them does not. */
  lemma NoElisionFits(header: Text, roots: seq<Root>, cap: int)
    requires !Fits(TreePage(header, roots, |roots|, false), cap)
    requires forall c :: 0 <= c < |roots| ==> !FitsFrom(header, roots, c, cap)
    ensures !Fits(TreePage(header, roots, 0, true), cap)
  {
    hide ListingWidth, Content, HasBlock;
    if c :| 0 <= c < |roots| && HasBlock(roots[c]) {
      FirstBlock(header, roots, c, cap);
    } else {
      NothingToElide(roots, 0, |roots|);
      hide TreePage, Fits;
      SameWidths(header, roots, cap);
    }
  }

  lemma {:induction false} FirstBlock(header: Text, roots: seq<Root>, c: nat, cap: int)
    requires c < |roots| && HasBlock(roots[c]) && forall k :: 0 <= k < |roots| ==> !FitsFrom(header, roots, k, cap)
    ensures !Fits(TreePage(header, roots, 0, true), cap)
    decreases c
  {
    hide ListingWidth, Content, HasBlock;
    if k :| 0 <= k < c && HasBlock(roots[k]) {
      FirstBlock(header, roots, k, cap);
    } else {
      NothingToElide(roots, 0, c);
      assert !FitsFrom(header, roots, c, cap);
    }
  }

  lemma SameWidths(header: Text, roots: seq<Root>, cap: int)
    requires TreeLines(roots, 0) == TreeLines(roots, |roots|)
    ensures Fits(TreePage(header, roots, 0, true), cap) <==> Fits(TreePage(header, roots, |roots|, false), cap)
  {
    SameContentSameWidth(TreePage(header, roots, 0, true), TreePage(header, roots, |roots|, false));
  }

  /**
   A tree listing is the whole tree if that fits. If not, it is the tree with the fewest blocks elided, from the last,
   that fits. If none does, it is the level cut after as many entries as fit, and continued there.
   */
  lemma TreeChoice(header: Text, roots: seq<Root>, cap: int)
    requires roots != []
    ensures var r := RenderTree(header, roots, cap);
            if Fits(TreePage(header, roots, |roots|, false), cap) then
              r == Listed(TreePage(header, roots, |roots|, false), |roots|)
            else if exists c :: 0 <= c < |roots| && FitsFrom(header, roots, c, cap) then
              exists c :: 0 <= c < |roots| && FitsFrom(header, roots, c, cap)
                && (forall later :: c < later < |roots| ==> !FitsFrom(header, roots, later, cap))
                && r == Listed(TreePage(header, roots, c, true), |roots|)
            else if Fits(LevelPage(header, roots, 1), cap) then
              exists n :: 0 < n < |roots| && FitsUpTo(header, roots, n, cap)
                && !Fits(LevelPage(header, roots, n + 1), cap) && r == Listed(LevelPage(header, roots, n), n)
            else
              var flat := FlatPage(header, LevelLines(roots), 0, |roots|, cap);
              r == if flat.Listed? && Fits(HeaderPage(header, roots), cap)
                   then Listed(Listing(header, header + [LF], true, Some(0), |roots|), 0) else flat
  {
    hide TreePage, LevelPage, Fits, TruncateFrom, FlatPage, PageBeforeFirstEntry;
    ElidesFewest(header, roots, |roots|, cap);
    if !Fits(TreePage(header, roots, |roots|, false), cap)
       && forall c :: 0 <= c < |roots| ==> !FitsFrom(header, roots, c, cap) {
      NoElisionFits(header, roots, cap);
      assert FitTree(header, roots, cap) == None;
      if Fits(LevelPage(header, roots, 1), cap) {
        KeepsMost(header, roots, 0, cap);
      } else {
        BeforeFirst(header, roots, cap);
      }
    }
  }

  lemma BeforeFirst(header: Text, roots: seq<Root>, cap: int)
    requires roots != [] && !Fits(LevelPage(header, roots, 1), cap)
    ensures var flat := FlatPage(header, LevelLines(roots), 0, |roots|, cap);
            TruncateFrom(header, roots, 0, cap)
              == if flat.Listed? && Fits(HeaderPage(header, roots), cap)
                 then Listed(Listing(header, header + [LF], true, Some(0), |roots|), 0) else flat
  {
    hide Fits, FlatPage, LevelPage;
    assert [header] + [] == [header];
  }
}
