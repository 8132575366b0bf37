/** One page of a directory's entries: as many as fit the result bound, found by halving. */
module DirectoryPage {
  import opened Text
  import opened Decimal
  import opened ModelText

  datatype Kind = Directory | File | Symlink | Special

  datatype LinkTarget = Nowhere | ToDirectory(path: Text) | ToFile(path: Text) | Unresolved(path: Text)

  datatype Entry = Entry(name: Text, kind: Kind, target: LinkTarget)

  function FormatEntry(e: Entry, indent: Text): Text {
    var named := indent + Lit("- ") + e.name;
    match e.kind
    case Directory => named + Lit("/")
    case Special => named + Lit("?")
    case File => named
    case Symlink =>
      match e.target
      case Nowhere => named + Lit("@")
      case ToDirectory(path) => named + Lit("@/ -> ") + path
      case ToFile(path) => named + Lit("@ -> ") + path
      case Unresolved(path) => named + Lit("@? -> ") + path
  }

  /** A listing's line: one line, with an indent, a dash and a name on it. */
  predicate IsLine(line: Text) {
    |line| >= 5 && LF !in line
  }

  predicate NoNewlines(e: Entry) {
    && LF !in e.name
    && (e.kind.Symlink? ==>
          match e.target
          case Nowhere => true
          case ToDirectory(p) => LF !in p
          case ToFile(p) => LF !in p
          case Unresolved(p) => LF !in p)
  }

  /** An entry is one line exactly when neither its name nor what it links to has a newline. */
  lemma EntryIsLine(e: Entry, indent: Text)
    requires e.name != [] && |indent| >= 2 && LF !in indent
    ensures IsLine(FormatEntry(e, indent)) <==> NoNewlines(e)
  {
    assert LF !in Lit("- ") && LF !in Lit("/") && LF !in Lit("?") && LF !in Lit("@");
    assert LF !in Lit("@/ -> ") && LF !in Lit("@ -> ") && LF !in Lit("@? -> ");
    if LF in e.name { InMiddle(indent + Lit("- "), e.name); }
  }

  lemma InMiddle(before: Text, name: Text)
    requires LF in name
    ensures LF in before + name
  {
  }

  /** The lines of a level's entries. */
  function LinesOf(entries: seq<Entry>): (lines: seq<Text>)
    ensures |lines| == |entries| && forall i :: 0 <= i < |entries| ==> lines[i] == FormatEntry(entries[i], INDENT)
  {
    seq(|entries|, i requires 0 <= i < |entries| => FormatEntry(entries[i], INDENT))
  }

  const INDENT: Text := [SPACE, SPACE]

  datatype Listing = Listing(path: Text, content: Text, truncated: bool, nextOffset: Option<nat>, entryCount: nat)

  function Entries(count: int): Text {
    if count == 1 then Lit("entry") else Lit("entries")
  }

  function Signed(n: int): Text {
    if n < 0 then Lit("-") + Digits(-n) else Digits(n)
  }

  function Notice(path: Text, count: nat, next: nat): Text {
    Lit("[") + Signed(count - next) + Lit(" more ") + Entries(count - next) + Lit(". Use ") + path + Lit(":")
      + Digits(next + 1)
    + Lit("- to continue]")
  }

  /** How long a listing is as rendered: its body, if any, and the notice on a line of its own. */
  function ListingWidth(l: Listing): nat {
    var body := Body(l.content);
    |body| + if l.truncated && l.nextOffset.Some?
             then (if body == [] then 0 else 1) + |Notice(l.path, l.entryCount, l.nextOffset.value)| else 0
  }

  function Content(header: Text, lines: seq<Text>): Text {
    Join([header] + lines, LF) + [LF]
  }

  /** A page that keeps the first `kept` lines and continues after them. */
  function PageAt(path: Text, header: Text, lines: seq<Text>, offset: nat, count: nat, kept: nat): Listing
    requires kept <= |lines|
  {
    Listing(path, Content(header, lines[..kept]), true, Some(offset + kept), count)
  }

  /** The page of a level from `offset` that keeps its first `kept` lines; its header is its path. */
  function PageOf(header: Text, lines: seq<Text>, offset: nat, count: nat, kept: nat): Listing
    requires kept <= |lines|
  {
    PageAt(header, header, lines, offset, count, kept)
  }

  /** The whole window, which continues only when the level goes on after it. */
  function WholeWindow(header: Text, lines: seq<Text>, offset: nat, count: nat): Listing {
    var end := offset + |lines|;
    Listing(header, Content(header, lines), end < count, if end < count then Some(end) else None, count)
  }

  // Widths.

  lemma {:induction false} JoinedWidth(header: Text, lines: seq<Text>, k: nat)
    requires k < |lines|
    ensures |Join([header] + lines[..k + 1], LF)| == |Join([header] + lines[..k], LF)| + 1 + |lines[k]|
  {
    assert [header] + lines[..k + 1] == ([header] + lines[..k]) + [lines[k]];
    JoinMore([header] + lines[..k], lines[k]);
  }

  lemma {:induction false} JoinMore(pieces: seq<Text>, last: Text)
    requires pieces != []
    ensures Join(pieces + [last], LF) == Join(pieces, LF) + [LF] + last
    decreases |pieces|
  {
    var all := pieces + [last];
    if |pieces| == 1 {
      assert all[1..] == [last];
    } else {
      assert all[1..] == pieces[1..] + [last] && all[0] == pieces[0];
      JoinMore(pieces[1..], last);
      assert pieces[0] + [LF] + (Join(pieces[1..], LF) + [LF] + last)
        == (pieces[0] + [LF] + Join(pieces[1..], LF)) + [LF] + last;
    }
  }

  lemma BodyOfContent(header: Text, lines: seq<Text>)
    ensures Body(Content(header, lines)) == Join([header] + lines, LF)
  {
    var c := Content(header, lines);
    assert c[..|c| - 1] == Join([header] + lines, LF);
  }

  /** Counting down loses at most one digit, and the noun at most two letters; never both at once. */
  lemma NoticeShrinks(path: Text, count: nat, next: nat)
    ensures |Notice(path, count, next)| <= |Notice(path, count, next + 1)| + 2
  {
    DigitsGrow(next + 1, next + 2);
    SignedShrinks(count - next);
  }

  lemma SignedShrinks(n: int)
    ensures |Signed(n)| <= |Signed(n - 1)| + if n == 2 then 0 else 1
  {
    if n >= 1 {
      DigitsGrowSlowly(n - 1, 1);
    } else {
      DigitsGrow(-n, 1 - n);
    }
  }

  /** One entry more never makes a narrower page; a wider one when its line has two characters. */
  lemma PageWidens(path: Text, header: Text, lines: seq<Text>, offset: nat, count: nat, k: nat)
    requires k < |lines| && lines[k] != []
    ensures ListingWidth(PageAt(path, header, lines, offset, count, k))
      <= ListingWidth(PageAt(path, header, lines, offset, count, k + 1))
    ensures |lines[k]| >= 2 ==>
      ListingWidth(PageAt(path, header, lines, offset, count, k))
        < ListingWidth(PageAt(path, header, lines, offset, count, k + 1))
  {
    hide Notice, Content;
    BodyOfContent(header, lines[..k]);
    BodyOfContent(header, lines[..k + 1]);
    JoinedWidth(header, lines, k);
    NoticeShrinks(path, count, offset + k);
  }

  lemma {:induction false} PagesNeverNarrow(path: Text, header: Text, lines: seq<Text>, offset: nat, count: nat,
      j: nat, k: nat)
    requires j <= k <= |lines| && forall i :: 0 <= i < |lines| ==> lines[i] != []
    ensures ListingWidth(PageAt(path, header, lines, offset, count, j))
      <= ListingWidth(PageAt(path, header, lines, offset, count, k))
    decreases k - j
  {
    hide ListingWidth, PageAt;
    if j < k {
      PagesNeverNarrow(path, header, lines, offset, count, j, k - 1);
      PageWidens(path, header, lines, offset, count, k - 1);
    }
  }

  lemma {:induction false} PagesWiden(header: Text, lines: seq<Text>, offset: nat, count: nat, j: nat, k: nat)
    requires j <= k <= |lines| && forall i :: 0 <= i < |lines| ==> IsLine(lines[i])
    ensures ListingWidth(PageOf(header, lines, offset, count, j))
      <= ListingWidth(PageOf(header, lines, offset, count, k))
    ensures j < k ==>
      ListingWidth(PageOf(header, lines, offset, count, j)) < ListingWidth(PageOf(header, lines, offset, count, k))
    decreases k - j
  {
    hide ListingWidth, PageAt;
    if j < k {
      PagesWiden(header, lines, offset, count, j, k - 1);
      PageWidens(header, header, lines, offset, count, k - 1);
    }
  }

  /** Without its continuation the whole window is no wider than with one. */
  lemma WholeIsNarrower(header: Text, lines: seq<Text>, offset: nat, count: nat)
    requires offset + |lines| <= count
    ensures ListingWidth(WholeWindow(header, lines, offset, count))
      <= ListingWidth(PageOf(header, lines, offset, count, |lines|))
  {
    assert lines[..|lines|] == lines;
    hide Notice, Content, Body;
  }

  // The search.

  datatype Outcome = Listed(page: Listing, entries: nat) | TooLarge

  /** Counts down from `k` to the first page within the cap. */
  function Largest(header: Text, lines: seq<Text>, offset: nat, count: nat, cap: int, k: nat): (kept: nat)
    requires k <= |lines|
    ensures kept <= k
  {
    if k <= 1 || ListingWidth(PageOf(header, lines, offset, count, k)) <= cap then k
    else Largest(header, lines, offset, count, cap, k - 1)
  }

  /** A window of a level, cut to the cap. */
  function FlatPage(header: Text, lines: seq<Text>, offset: nat, count: nat, cap: int): Outcome {
    if ListingWidth(WholeWindow(header, lines, offset, count)) <= cap
      then Listed(WholeWindow(header, lines, offset, count), |lines|)
    else if lines == [] || ListingWidth(PageOf(header, lines, offset, count, 1)) > cap then TooLarge
    else
      var kept := Largest(header, lines, offset, count, cap, |lines| - 1);
      Listed(PageOf(header, lines, offset, count, kept), kept)
  }

  ghost predicate Window(header: Text, lines: seq<Text>, offset: nat, count: nat) {
    && LF !in header && offset + |lines| <= count && forall i :: 0 <= i < |lines| ==> IsLine(lines[i])
  }

  // What a listing's text says its entries are.

  function NonEmpty(pieces: seq<Text>): (lines: seq<Text>)
    ensures forall i :: 0 <= i < |lines| ==> lines[i] != []
  {
    if pieces == [] then [] else (if pieces[0] == [] then [] else [pieces[0]]) + NonEmpty(pieces[1..])
  }

  /** What is listed before the first newline. */
  function Top(content: Text): Text {
    Split(content, LF)[0]
  }

  /** The entry lines a listing's content holds, as its text says. */
  function EntryLines(content: Text): (lines: seq<Text>)
    ensures forall i :: 0 <= i < |lines| ==> lines[i] != []
  {
    NonEmpty(Split(content, LF)[1..])
  }

  /** The lines an entry's own line makes. */
  function Pieces(line: Text): seq<Text> {
    NonEmpty(Split(line, LF))
  }

  function AllPieces(lines: seq<Text>): seq<Text> {
    if lines == [] then [] else Pieces(lines[0]) + AllPieces(lines[1..])
  }

  lemma {:induction false} NonEmptyJoins(a: seq<Text>, b: seq<Text>)
    ensures NonEmpty(a + b) == NonEmpty(a) + NonEmpty(b)
    decreases |a|
  {
    if a == [] {
      assert a + b == b;
    } else {
      assert (a + b)[1..] == a[1..] + b;
      NonEmptyJoins(a[1..], b);
    }
  }

  lemma {:induction false} PiecesHaveNone(s: Text, i: nat)
    requires i < |Split(s, LF)|
    ensures LF !in Split(s, LF)[i]
    decreases |s|
  {
    if s != [] {
      PiecesHaveNone(s[1..], if i == 0 || s[0] != LF then i else i - 1);
    }
  }

  lemma {:induction false} NonEmptyHaveNone(pieces: seq<Text>)
    requires forall i :: 0 <= i < |pieces| ==> LF !in pieces[i]
    ensures forall i :: 0 <= i < |NonEmpty(pieces)| ==> LF !in NonEmpty(pieces)[i]
    decreases |pieces|
  {
    if pieces != [] {
      NonEmptyHaveNone(pieces[1..]);
    }
  }

  lemma {:induction false} SplitBoth(a: Text, b: Text)
    ensures Split(a + [LF] + b, LF) == Split(a, LF) + Split(b, LF)
    decreases |a|
  {
    var s := a + [LF] + b;
    if a == [] {
      assert s == [LF] + b && s[1..] == b;
    } else {
      assert s[1..] == a[1..] + [LF] + b && s[0] == a[0];
      SplitBoth(a[1..], b);
    }
  }

  /** The text of a listing's content says that its entries are the pieces of its lines. */
  lemma {:induction false} ContentSays(header: Text, lines: seq<Text>)
    requires LF !in header
    ensures Top(Content(header, lines)) == header && EntryLines(Content(header, lines)) == AllPieces(lines)
  {
    hide Split, NonEmpty;
    SplitPiece(header, [], LF);
    if lines == [] {
      OnlyHeader(header);
    } else {
      var rest := Join(lines, LF) + [LF];
      assert ([header] + lines)[1..] == lines;
      assert Content(header, lines) == header + [LF] + rest;
      SplitPiece(header, rest, LF);
      assert ([header] + Split(rest, LF))[1..] == Split(rest, LF);
      JoinedPieces(lines);
    }
  }

  lemma OnlyHeader(header: Text)
    requires LF !in header
    ensures Top(Content(header, [])) == header && EntryLines(Content(header, [])) == []
  {
    var none: Text := [];
    assert [header] + [] == [header];
    assert Content(header, []) == header + [LF] + none;
    SplitPiece(header, none, LF);
    var last: seq<Text> := [[]];
    assert last[1..] == [] && NonEmpty(last) == [];
  }

  lemma {:induction false} JoinedPieces(lines: seq<Text>)
    requires lines != []
    ensures NonEmpty(Split(Join(lines, LF) + [LF], LF)) == AllPieces(lines)
    decreases |lines|
  {
    hide Split, NonEmpty;
    if |lines| == 1 {
      var none: Text := [];
      assert lines[0] + [LF] + none == lines[0] + [LF];
      SplitBoth(lines[0], none);
      NonEmptyJoins(Split(lines[0], LF), Split(none, LF));
      NothingSplits();
      assert lines[1..] == [];
    } else {
      assert Join(lines, LF) + [LF] == lines[0] + [LF] + (Join(lines[1..], LF) + [LF]);
      SplitBoth(lines[0], Join(lines[1..], LF) + [LF]);
      NonEmptyJoins(Split(lines[0], LF), Split(Join(lines[1..], LF) + [LF], LF));
      JoinedPieces(lines[1..]);
    }
  }

  lemma NothingSplits()
    ensures NonEmpty(Split([], LF)) == []
  {
    var none: seq<Text> := [[]];
    assert none[1..] == [];
  }

  lemma OnePiece(line: Text)
    requires line != [] && LF !in line
    ensures Pieces(line) == [line]
  {
    SplitPiece(line, [], LF);
    hide Split;
    var one := [line];
    assert one[1..] == [] && NonEmpty(one) == [line] + NonEmpty(one[1..]);
  }

  lemma {:induction false} EachItsPiece(lines: seq<Text>)
    requires forall i :: 0 <= i < |lines| ==> lines[i] != [] && LF !in lines[i]
    ensures AllPieces(lines) == lines
    decreases |lines|
  {
    if lines != [] {
      OnePiece(lines[0]);
      hide Pieces;
      EachItsPiece(lines[1..]);
    }
  }

  /** A listing's text gives back its entry lines exactly when none of them has a newline. */
  lemma ContentSplits(header: Text, lines: seq<Text>)
    requires LF !in header && forall i :: 0 <= i < |lines| ==> lines[i] != []
    ensures Top(Content(header, lines)) == header
    ensures EntryLines(Content(header, lines)) == lines <==> forall i :: 0 <= i < |lines| ==> LF !in lines[i]
  {
    hide Split, NonEmpty, Content;
    ContentSays(header, lines);
    if forall i :: 0 <= i < |lines| ==> LF !in lines[i] {
      EachItsPiece(lines);
    } else {
      var content := Content(header, lines);
      var all := Split(content, LF);
      forall i | 0 <= i < |all| ensures LF !in all[i] {
        PiecesHaveNone(content, i);
      }
      NonEmptyHaveNone(all[1..]);
    }
  }

  /** So of the entries of a level: the text counts them right exactly when no name and no link target has a newline. */
  lemma EntriesSplit(header: Text, entries: seq<Entry>)
    requires LF !in header && forall i :: 0 <= i < |entries| ==> entries[i].name != []
    ensures EntryLines(Content(header, LinesOf(entries))) == LinesOf(entries) <==>
      forall i :: 0 <= i < |entries| ==> NoNewlines(entries[i])
  {
    hide FormatEntry, EntryLines, Content, NoNewlines;
    forall i | 0 <= i < |entries|
      ensures LinesOf(entries)[i] != [] && (LF !in LinesOf(entries)[i] <==> NoNewlines(entries[i]))
    {
      EntryIsLine(entries[i], INDENT);
      EntryIsLong(entries[i]);
    }
    ContentSplits(header, LinesOf(entries));
  }

  lemma EntryIsLong(e: Entry)
    requires e.name != []
    ensures |FormatEntry(e, INDENT)| >= 5
  {
  }

  // What a miscount does.

  lemma {:induction false} PiecesAdd(lines: seq<Text>, k: nat)
    requires k < |lines|
    ensures AllPieces(lines[..k + 1]) == AllPieces(lines[..k]) + Pieces(lines[k])
    decreases k
  {
    hide Pieces;
    assert lines[..k + 1][0] == lines[0];
    if k == 0 {
      assert lines[..1][1..] == [] && lines[..0] == [];
    } else {
      assert lines[..k + 1][1..] == lines[1..][..k] && lines[..k][1..] == lines[1..][..k - 1];
      PiecesAdd(lines[1..], k - 1);
    }
  }

  /** Every entry shows at least one piece. */
  ghost predicate Shown(lines: seq<Text>) {
    forall i :: 0 <= i < |lines| ==> Pieces(lines[i]) != []
  }

  lemma {:induction false} PiecesOutnumber(lines: seq<Text>, k: nat)
    requires Shown(lines) && k <= |lines|
    ensures |AllPieces(lines[..k])| >= k
    ensures |AllPieces(lines[..k])| == k <==> forall i :: 0 <= i < k ==> |Pieces(lines[i])| == 1
    decreases k
  {
    hide Pieces, AllPieces;
    if k == 0 {
      NoPieces(lines[..0]);
    } else {
      PiecesOutnumber(lines, k - 1);
      PiecesAdd(lines, k - 1);
    }
  }

  lemma NoPieces(lines: seq<Text>)
    requires lines == []
    ensures AllPieces(lines) == []
  {
  }

  /** Entry `i` exists, and all of it is among the first `kept` pieces. */
  ghost predicate ShownWhole(lines: seq<Text>, i: nat, kept: nat) {
    i < |lines| && |AllPieces(lines[..i + 1])| <= kept
  }

  /**
   A page that keeps `kept` of the lines in its text shows that many pieces and continues that many entries
   further on. The entries it passes over are all in the window and shown whole exactly when each of them is
   one piece; otherwise some are on no page, or the page continues past the window's end.
   */
  lemma MiscountSkips(header: Text, lines: seq<Text>, offset: nat, count: nat, kept: nat)
    requires LF !in header && Shown(lines) && kept <= |AllPieces(lines)|
    ensures var result := WholeWindow(header, lines, offset, count);
            && kept <= |EntryLines(result.content)|
            && CutPage(result, offset, kept).content == Content(header, AllPieces(lines)[..kept])
            && CutPage(result, offset, kept).nextOffset == Some(offset + kept)
    ensures (forall i :: 0 <= i < kept ==> ShownWhole(lines, i, kept)) <==>
      kept <= |lines| && (forall i :: 0 <= i < kept ==> |Pieces(lines[i])| == 1)
    ensures kept > |lines| ==> exists i :: 0 <= i < |lines| && |Pieces(lines[i])| > 1
  {
    hide Pieces, AllPieces, Content, EntryLines, ShownWhole;
    ContentSays(header, lines);
    if kept <= |lines| {
      PassedOver(lines, kept);
    } else {
      assert lines[..|lines|] == lines;
      PiecesOutnumber(lines, |lines|);
      if lines == [] { NoPieces(lines); }
      assert !ShownWhole(lines, |lines|, kept) by { PastTheLast(lines, kept); }
    }
  }

  lemma PastTheLast(lines: seq<Text>, kept: nat)
    ensures !ShownWhole(lines, |lines|, kept)
  {
  }

  lemma PassedOver(lines: seq<Text>, kept: nat)
    requires Shown(lines) && kept <= |lines|
    ensures (forall i :: 0 <= i < kept ==> ShownWhole(lines, i, kept)) <==>
      (forall i :: 0 <= i < kept ==> |Pieces(lines[i])| == 1)
  {
    hide Pieces, AllPieces;
    PiecesOutnumber(lines, kept);
    if forall i :: 0 <= i < kept ==> |Pieces(lines[i])| == 1 {
      forall i | 0 <= i < kept ensures ShownWhole(lines, i, kept) {
        PiecesOutnumber(lines, i + 1);
      }
    } else {
      assert lines[..kept - 1 + 1] == lines[..kept] && !ShownWhole(lines, kept - 1, kept);
    }
  }

  lemma TwoPieces(first: Text, second: Text)
    requires LF !in first && LF !in second && first != [] && second != []
    ensures Pieces(first + [LF] + second) == [first, second]
  {
    SplitPiece(first, second, LF);
    SplitPiece(second, [], LF);
    var both, one := [first, second], [second];
    assert both[1..] == one && one[1..] == [];
    assert [first] + [second] == both;
    assert NonEmpty(one) == one;
  }

  /** A page within the cap whose successor is over it is the one counting down finds. */
  lemma {:induction false} LargestIs(header: Text, lines: seq<Text>, offset: nat, count: nat, cap: int, k: nat,
      kept: nat)
    requires Window(header, lines, offset, count) && 1 <= kept <= k <= |lines|
    requires ListingWidth(PageOf(header, lines, offset, count, kept)) <= cap
    requires kept < k ==> ListingWidth(PageOf(header, lines, offset, count, kept + 1)) > cap
    ensures Largest(header, lines, offset, count, cap, k) == kept
    decreases k
  {
    hide ListingWidth, PageOf;
    if kept < k {
      PagesWiden(header, lines, offset, count, kept + 1, k);
      LargestIs(header, lines, offset, count, cap, k - 1, kept);
    }
  }

  /** The page that keeps `kept` of the entry lines a listing's text holds. */
  function CutPage(result: Listing, offset: nat, kept: nat): Listing
    requires kept <= |EntryLines(result.content)|
  {
    PageAt(result.path, Top(result.content), EntryLines(result.content), offset, result.entryCount, kept)
  }

  /**
   Any listing cut to the cap, from its rendered content. One that fits stays; it is refused exactly when it
   holds no entry line or not even one fits; otherwise of the pages that keep fewer than all lines the largest
   that fits is kept.
   */
  ghost predicate BoundedTo(result: Listing, offset: nat, cap: int, r: Outcome) {
    var entries := EntryLines(result.content);
    if ListingWidth(result) <= cap then r == Listed(result, |entries|)
    else if entries == [] || ListingWidth(CutPage(result, offset, 1)) > cap then r == TooLarge
    else
      && r.Listed? && 1 <= r.entries <= |entries| && r.page == CutPage(result, offset, r.entries)
      && ListingWidth(r.page) <= cap && (|entries| > 1 ==> r.entries < |entries|)
      && forall k :: r.entries < k < |entries| ==> ListingWidth(CutPage(result, offset, k)) > cap
  }

  /** A page that fits, while the whole listing and the next larger page do not, is the one kept. */
  lemma BoundedAt(result: Listing, offset: nat, cap: int, kept: nat, r: Outcome)
    requires 1 <= kept < |EntryLines(result.content)| && ListingWidth(result) > cap
    requires ListingWidth(CutPage(result, offset, kept)) <= cap && BoundedTo(result, offset, cap, r)
    requires kept + 1 < |EntryLines(result.content)| ==> ListingWidth(CutPage(result, offset, kept + 1)) > cap
    ensures r == Listed(CutPage(result, offset, kept), kept)
  {
    hide ListingWidth, EntryLines, PageAt, Top;
    var entries := EntryLines(result.content);
    PagesNeverNarrow(result.path, Top(result.content), entries, offset, result.entryCount, 1, kept);
    if kept + 1 < |entries| && r.Listed? && r.entries > kept {
      PagesNeverNarrow(result.path, Top(result.content), entries, offset, result.entryCount, kept + 1, r.entries);
    }
  }

  method BoundFlatResult(result: Listing, offset: nat, cap: int) returns (r: Outcome)
    ensures BoundedTo(result, offset, cap, r)
  {
    hide ListingWidth, EntryLines, PageAt;
    var entries := EntryLines(result.content);
    if ListingWidth(result) <= cap { return Listed(result, |entries|); }
    if entries == [] || ListingWidth(CutPage(result, offset, 1)) > cap { return TooLarge; }
    var low, high := 1, |entries| - 1;
    while low < high
      invariant 1 <= low <= |entries| && 0 <= high < |entries| && (|entries| > 1 ==> low <= high)
      invariant ListingWidth(CutPage(result, offset, low)) <= cap
      invariant high + 1 < |entries| ==> ListingWidth(CutPage(result, offset, high + 1)) > cap
    {
      var middle := (low + high + 1) / 2;
      if ListingWidth(CutPage(result, offset, middle)) <= cap { low := middle; } else { high := middle - 1; }
    }
    forall k | low < k < |entries| ensures ListingWidth(CutPage(result, offset, k)) > cap {
      PagesNeverNarrow(result.path, Top(result.content), entries, offset, result.entryCount, low + 1, k);
    }
    return Listed(CutPage(result, offset, low), low);
  }

  /** Cut to its last line but one, a window that itself continues is narrower by that line. */
  lemma LastLineIsWider(header: Text, lines: seq<Text>, offset: nat, count: nat)
    requires LF !in header && |AllPieces(lines)| >= 1 && offset + |lines| < count
    requires Join([header] + lines, LF) == Join([header] + AllPieces(lines), LF)
    requires offset + |AllPieces(lines)| - 1 == offset + |lines|
    ensures var result, n := WholeWindow(header, lines, offset, count), |AllPieces(lines)| - 1;
            EntryLines(result.content) == AllPieces(lines)
              && ListingWidth(CutPage(result, offset, n)) < ListingWidth(result)
  {
    hide Notice, AllPieces, EntryLines, Top;
    var pieces := AllPieces(lines);
    var n := |pieces| - 1;
    ContentSays(header, lines);
    BodyOfContent(header, lines);
    BodyOfContent(header, pieces[..n]);
    assert pieces[..n + 1] == pieces;
    JoinedWidth(header, pieces, n);
  }

  /**
   A name with a newline in it is counted as two entries: under the cap that its two pieces just fit, the page
   shows them and continues past the entry after it, which no page shows.
   */
  lemma NewlineSkipsAnEntry(
      header: Text, first: Text, second: Text, next: Text, offset: nat, count: nat, r: Outcome)
    requires LF !in header && LF !in first && LF !in second && LF !in next && first != [] && second != [] && next != []
    requires offset + 2 < count
    requires BoundedTo(WholeWindow(header, [first + [LF] + second, next], offset, count), offset,
                       ListingWidth(PageOf(header, [first, second], offset, count, 2)), r)
    ensures r.Listed? && r.page.content == Content(header, [first, second]) && r.page.nextOffset == Some(offset + 2)
  {
    hide Split, NonEmpty, Content, ListingWidth, EntryLines, Pieces, BoundedTo;
    var lines := [first + [LF] + second, next];
    ThreePieces(first, second, next);
    SameJoin(header, first, second, next);
    ContentSays(header, lines);
    LastLineIsWider(header, lines, offset, count);
    var result := WholeWindow(header, lines, offset, count);
    assert AllPieces(lines)[..2] == [first, second] == [first, second][..2];
    assert CutPage(result, offset, 2) == PageOf(header, [first, second], offset, count, 2);
    BoundedAt(result, offset, ListingWidth(CutPage(result, offset, 2)), 2, r);
  }

  lemma ThreePieces(first: Text, second: Text, next: Text)
    requires LF !in first && LF !in second && LF !in next && first != [] && second != [] && next != []
    ensures AllPieces([first + [LF] + second, next]) == [first, second, next]
  {
    hide Pieces;
    TwoPieces(first, second);
    OnePiece(next);
    var lines, rest := [first + [LF] + second, next], [next];
    assert lines[1..] == rest && rest[1..] == [];
    assert AllPieces(rest) == [next] + AllPieces(rest[1..]) == [next];
    assert [first, second] + [next] == [first, second, next];
  }

  lemma SameJoin(header: Text, first: Text, second: Text, next: Text)
    ensures Join([header] + [first + [LF] + second, next], LF) == Join([header] + [first, second, next], LF)
  {
    var a, b := [header, first + [LF] + second, next], [header, first, second, next];
    assert [header] + [first + [LF] + second, next] == a && [header] + [first, second, next] == b;
    var a1, a2, b1, b2, b3 := a[1..], a[2..], b[1..], b[2..], b[3..];
    assert a1[1..] == a2 && b1[1..] == b2 && b2[1..] == b3;
    assert Join(a2, LF) == next == Join(b3, LF);
    assert Join(b2, LF) == second + [LF] + next;
    assert Join(a1, LF) == (first + [LF] + second) + [LF] + next == first + [LF] + (second + [LF] + next)
      == Join(b1, LF);
  }

  /**
   A level of one entry whose name has two newlines, the last part wider than a notice: the page that shows
   the first two parts continues at an entry the level does not have.
   */
  lemma MiscountPassesTheEnd(header: Text, first: Text, second: Text, third: Text, r: Outcome)
    requires LF !in header && LF !in first && LF !in second && LF !in third && first != [] && second != []
    requires |third| > |Notice(header, 1, 2)|
    requires BoundedTo(WholeWindow(header, [first + [LF] + (second + [LF] + third)], 0, 1), 0,
                       ListingWidth(PageOf(header, [first, second], 0, 1, 2)), r)
    ensures r.Listed? && r.page.entryCount == 1 && r.page.nextOffset == Some(2)
    ensures r.page.content == Content(header, [first, second])
  {
    hide Split, NonEmpty, Content, ListingWidth, EntryLines, Pieces, BoundedTo, Notice;
    var lines, pieces := [first + [LF] + (second + [LF] + third)], [first, second, third];
    PartsOfOne(first, second, third);
    ContentSays(header, lines);
    var result := WholeWindow(header, lines, 0, 1);
    OneLineWidths(header, lines[0], first, second, third);
    assert pieces[..2] == [first, second] == [first, second][..2];
    assert CutPage(result, 0, 2) == PageOf(header, [first, second], 0, 1, 2);
    BoundedAt(result, 0, ListingWidth(CutPage(result, 0, 2)), 2, r);
  }

  lemma PartsOfOne(first: Text, second: Text, third: Text)
    requires LF !in first && LF !in second && LF !in third && first != [] && second != [] && third != []
    ensures AllPieces([first + [LF] + (second + [LF] + third)]) == [first, second, third]
  {
    var line := first + [LF] + (second + [LF] + third);
    SplitPiece(first, second + [LF] + third, LF);
    SplitPiece(second, third, LF);
    SplitPiece(third, [], LF);
    hide Split;
    var all, two, one, lines := [first, second, third], [second, third], [third], [line];
    assert [first] + ([second] + [third]) == all && all[1..] == two && two[1..] == one && one[1..] == []
      && lines[1..] == [];
    assert NonEmpty(one) == one && NonEmpty(two) == two && NonEmpty(all) == all;
  }

  lemma OneLineWidths(header: Text, line: Text, first: Text, second: Text, third: Text)
    requires LF !in header && line == first + [LF] + (second + [LF] + third) && |third| > |Notice(header, 1, 2)|
    requires first != [] && second != [] && AllPieces([line]) == [first, second, third]
    ensures var result := WholeWindow(header, [line], 0, 1);
            EntryLines(result.content) == [first, second, third]
              && ListingWidth(CutPage(result, 0, 2)) < ListingWidth(result)
  {
    hide Notice, AllPieces, EntryLines, Top;
    var lines, pieces := [line], [first, second, third];
    ContentSays(header, lines);
    BodyOfContent(header, lines);
    BodyOfContent(header, pieces[..2]);
    assert lines[..0] == [] && lines[..1] == lines && pieces[..0] == [] && pieces[..1] == [first]
      && [header] + [] == [header];
    JoinedWidth(header, lines, 0);
    JoinedWidth(header, pieces, 0);
    JoinedWidth(header, pieces, 1);
  }

  /** The lines a listing's text holds are the window's own, so a cut of it is a page of the window. */
  lemma CutOfWindow(header: Text, lines: seq<Text>, offset: nat, count: nat, kept: nat)
    requires Window(header, lines, offset, count) && kept <= |lines|
    ensures EntryLines(WholeWindow(header, lines, offset, count).content) == lines
    ensures CutPage(WholeWindow(header, lines, offset, count), offset, kept)
      == PageOf(header, lines, offset, count, kept)
  {
    hide Content, EntryLines, Top;
    ContentSplits(header, lines);
  }

  /** The flat page of a level's window, cut from the window's text. */
  method ListWindow(header: Text, selected: seq<Text>, offset: nat, count: nat, cap: int) returns (r: Outcome)
    requires Window(header, selected, offset, count)
    ensures r == FlatPage(header, selected, offset, count, cap)
  {
    hide ListingWidth, EntryLines, WholeWindow, CutPage, PageOf;
    var result := WholeWindow(header, selected, offset, count);
    r := BoundFlatResult(result, offset, cap);
    CutOfWindow(header, selected, offset, count, |selected|);
    if ListingWidth(result) > cap && selected != [] {
      CutOfWindow(header, selected, offset, count, 1);
      assert result.entryCount == count by { CountOfWindow(header, selected, offset, count); }
      WholeIsNarrower(header, selected, offset, count);
      if r.Listed? {
        CutOfWindow(header, selected, offset, count, r.entries);
        if r.entries + 1 <= |selected| { CutOfWindow(header, selected, offset, count, r.entries + 1); }
        LargestIs(header, selected, offset, count, cap, |selected| - 1, r.entries);
      }
    }
  }

  lemma CountOfWindow(header: Text, lines: seq<Text>, offset: nat, count: nat)
    ensures WholeWindow(header, lines, offset, count).entryCount == count
  {
  }

  /** The kept page fits, keeps at least one entry, and no larger one fits. */
  lemma LargestPage(header: Text, lines: seq<Text>, offset: nat, count: nat, cap: int)
    requires Window(header, lines, offset, count)
    ensures match FlatPage(header, lines, offset, count, cap)
            case TooLarge =>
              && ListingWidth(WholeWindow(header, lines, offset, count)) > cap
              && forall k :: 1 <= k <= |lines| ==> ListingWidth(PageOf(header, lines, offset, count, k)) > cap
            case Listed(page, kept) =>
              && ListingWidth(page) <= cap && kept <= |lines| && (kept == 0 ==> lines == [])
              && page.content == Content(header, lines[..kept])
              && (kept < |lines| ==> page.truncated && page.nextOffset == Some(offset + kept)
                                     && forall k :: kept < k <= |lines| ==>
                                       ListingWidth(PageOf(header, lines, offset, count, k)) > cap)
              && (kept == |lines| ==> page == WholeWindow(header, lines, offset, count))
  {
    hide ListingWidth;
    WholeIsNarrower(header, lines, offset, count);
    assert lines[..|lines|] == lines;
    if ListingWidth(WholeWindow(header, lines, offset, count)) > cap && lines != [] {
      if ListingWidth(PageOf(header, lines, offset, count, 1)) > cap {
        forall k | 1 <= k <= |lines| ensures ListingWidth(PageOf(header, lines, offset, count, k)) > cap {
          PagesWiden(header, lines, offset, count, 1, k);
        }
      } else {
        LargestFits(header, lines, offset, count, cap, |lines| - 1);
        var kept := Largest(header, lines, offset, count, cap, |lines| - 1);
        forall k | kept < k <= |lines| ensures ListingWidth(PageOf(header, lines, offset, count, k)) > cap {
          PagesWiden(header, lines, offset, count, kept + 1, k);
        }
      }
    }
  }

  lemma {:induction false} LargestFits(header: Text, lines: seq<Text>, offset: nat, count: nat, cap: int, k: nat)
    requires Window(header, lines, offset, count) && k < |lines|
    requires ListingWidth(PageOf(header, lines, offset, count, 1))
      <= cap < ListingWidth(PageOf(header, lines, offset, count, k + 1))
    ensures var kept := Largest(header, lines, offset, count, cap, k);
            1 <= kept <= k
              && ListingWidth(PageOf(header, lines, offset, count, kept))
              <= cap < ListingWidth(PageOf(header, lines, offset, count, kept + 1))
    decreases k
  {
    hide ListingWidth, PageOf;
    if k > 1 && ListingWidth(PageOf(header, lines, offset, count, k)) > cap {
      LargestFits(header, lines, offset, count, cap, k - 1);
    }
  }

  // Following flat pages.

  /** The entries listed by following a level's pages from `offset`, each read to the level's end. */
  function Follow(header: Text, lines: seq<Text>, offset: nat, cap: int): seq<Text>
    requires offset <= |lines|
    decreases |lines| - offset
  {
    var r := FlatPage(header, lines[offset..], offset, |lines|, cap);
    if offset == |lines| || r.TooLarge? || r.entries == 0 || offset + r.entries > |lines| then []
    else lines[offset..offset + r.entries] + Follow(header, lines, offset + r.entries, cap)
  }

  /** The header, one entry and its continuation fit the cap. */
  predicate FitsAlone(header: Text, lines: seq<Text>, i: nat, cap: int)
    requires i < |lines|
  {
    ListingWidth(PageOf(header, lines[i..], i, |lines|, 1)) <= cap
  }

  lemma PageAdvances(header: Text, lines: seq<Text>, offset: nat, cap: int)
    requires Window(header, lines, 0, |lines|) && offset < |lines| && FitsAlone(header, lines, offset, cap)
    ensures var r := FlatPage(header, lines[offset..], offset, |lines|, cap);
      r.Listed? && 0 < r.entries <= |lines| - offset
  {
    hide ListingWidth, FlatPage, Content, PageOf, WholeWindow;
    LargestPage(header, lines[offset..], offset, |lines|, cap);
  }

  /** Where every entry fits a page with its header, following the pages lists every entry once, in order. */
  lemma {:induction false} PagesListEveryEntry(header: Text, lines: seq<Text>, offset: nat, cap: int)
    requires Window(header, lines, 0, |lines|) && offset <= |lines|
    requires forall i :: offset <= i < |lines| ==> FitsAlone(header, lines, i, cap)
    ensures Follow(header, lines, offset, cap) == lines[offset..]
    decreases |lines| - offset
  {
    hide ListingWidth, FlatPage, Content, PageOf, WholeWindow;
    if offset < |lines| {
      assert FitsAlone(header, lines, offset, cap);
      PageAdvances(header, lines, offset, cap);
      hide FitsAlone;
      var r := FlatPage(header, lines[offset..], offset, |lines|, cap);
      PagesListEveryEntry(header, lines, offset + r.entries, cap);
      assert lines[offset..offset + r.entries] + lines[offset + r.entries..] == lines[offset..];
    }
  }

  /** So for the entries of any level in which no name and no link target has a newline. */
  lemma PagesListEntries(header: Text, entries: seq<Entry>, cap: int)
    requires LF !in header && forall i :: 0 <= i < |entries| ==> entries[i].name != [] && NoNewlines(entries[i])
    requires forall i :: 0 <= i < |entries| ==> FitsAlone(header, LinesOf(entries), i, cap)
    ensures Follow(header, LinesOf(entries), 0, cap) == LinesOf(entries)
  {
    hide FormatEntry, FitsAlone, Follow, NoNewlines;
    forall i | 0 <= i < |entries| ensures IsLine(LinesOf(entries)[i]) {
      EntryIsLine(entries[i], INDENT);
    }
    PagesListEveryEntry(header, LinesOf(entries), 0, cap);
    assert LinesOf(entries)[0..] == LinesOf(entries);
  }
}
