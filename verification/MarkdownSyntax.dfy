/**
 The block-level syntax tests the Markdown structure scanner runs on one physical line.

 The geometry that moves the scanner's cursor (indentation, quote markers, list markers, ATX runs) is
 written out. The remaining line classifiers are functions of the line alone and are collected in a
 `Grammar`, so everything proved about the scanner holds for every choice of them.
 */
module MarkdownSyntax {
  import opened Text

  const GREATER: CodeUnit := 0x3E
  const HASH: CodeUnit := 0x23
  const STAR: CodeUnit := 0x2A
  const PLUS: CodeUnit := 0x2B
  const MINUS: CodeUnit := 0x2D
  const DOT: CodeUnit := 0x2E
  const PAREN: CodeUnit := 0x29
  const EQUALS: CodeUnit := 0x3D
  const BYTE_ORDER_MARK: CodeUnit := 0xFEFF

  datatype Fence = Fence(mark: CodeUnit, length: nat)

  datatype Grammar = Grammar(
    expandTabs: Text -> Text,
    isDelimiter: (Text, bool) -> bool,
    fenceOpen: Text -> Option<Fence>,
    fenceCloses: (Fence, Text) -> bool,
    htmlStartKind: (Text, bool) -> nat,
    htmlCloses: (nat, Text) -> bool,
    setextUnderline: Text -> bool,
    thematicBreak: Text -> bool,
    mayOpenDefinition: Text -> bool,
    definitionLineCount: seq<Text> -> nat)

  datatype Container = Quote | Item(required: nat, hasChild: bool)

  datatype Cursor = Cursor(line: Text, offset: nat, next: nat, indent: nat, blank: bool) {
    ghost predicate Within() {
      offset <= |line|
    }

    /** The cursor has been advanced: `next` is the first non-space at or after `offset`. */
    ghost predicate Advanced() {
      && offset <= next <= |line|
      && indent == next - offset
      && (blank <==> next == |line|)
      && (forall k :: offset <= k < next ==> line[k] == SPACE)
      && (next < |line| ==> line[next] != SPACE)
    }

    function Advance(): (r: Cursor)
      requires Within()
      ensures r.line == line && r.offset == offset && r.Advanced()
    {
      var next := offset + RunLength(line[offset..], c => c == SPACE);
      assert forall k :: offset <= k < next ==> line[k] == line[offset..][k - offset];
      assert next < |line| ==> line[next] == line[offset..][next - offset];
      Cursor(line, offset, next, next - offset, next >= |line|)
    }
  }

  method AdvanceCursor(c: Cursor) returns (r: Cursor)
    requires c.Within()
    ensures r == c.Advance()
  {
    var next := c.offset;
    while next < |c.line| && c.line[next] == SPACE
      invariant c.offset <= next <= |c.line|
      invariant forall k :: c.offset <= k < next ==> c.line[k] == SPACE
    {
      next := next + 1;
    }
    r := Cursor(c.line, c.offset, next, next - c.offset, next >= |c.line|);
    assert r.Advanced() && c.Advance().Advanced();
  }

  /** Steps over `>` and one following space. */
  function ConsumeQuoteMarker(c: Cursor): (r: Cursor)
    requires c.next < |c.line|
    ensures r.line == c.line && c.next < r.offset <= |c.line|
  {
    var offset := c.next + 1;
    c.(offset := if offset < |c.line| && c.line[offset] == SPACE then offset + 1 else offset)
  }

  /** The cursor past a container's prefix, if the line carries one. */
  function Continues(container: Container, c: Cursor): (r: Option<Cursor>)
    requires c.Advanced()
    ensures r.Some? ==> r.value.line == c.line && c.offset <= r.value.offset <= |c.line|
  {
    match container
    case Quote =>
      if c.indent >= 4 || c.next == |c.line| || c.line[c.next] != GREATER then None
      else Some(ConsumeQuoteMarker(c))
    case Item(required, hasChild) =>
      if c.blank then
        if hasChild then Some(c.(offset := c.next)) else None
      else if c.indent < required then None
      else Some(c.(offset := c.offset + required))
  }

  predicate AllSpaces(t: Text) {
    forall k :: 0 <= k < |t| ==> t[k] == SPACE
  }

  /** The marker taken is `>` and the one space after it, if there is one; further spaces stay. */
  lemma QuoteMarkerTaken(c: Cursor)
    requires c.next < |c.line| && c.line[c.next] == GREATER
    ensures var r := ConsumeQuoteMarker(c);
            && r.offset <= |c.line| && c.next <= r.offset
            && (c.line[c.next..r.offset] == [GREATER] || c.line[c.next..r.offset] == [GREATER, SPACE])
            && (c.line[c.next..r.offset] == [GREATER] ==> r.offset == |c.line| || c.line[r.offset] != SPACE)
  {
  }

  /**
   A quote goes on with `>` behind at most three spaces; an item with a blank line once it has a child, and
   else with its own indent. What is taken is that prefix and nothing more.
   */
  lemma ContinuesExactly(container: Container, c: Cursor)
    requires c.Advanced()
    ensures var r := Continues(container, c);
            && (r.Some? <==> match container
                             case Quote => c.next < |c.line| && c.line[c.next] == GREATER
                               && |c.line[c.offset..c.next]| < 4
                             case Item(required, hasChild) =>
                               if AllSpaces(c.line[c.offset..]) then hasChild
                               else c.offset + required <= |c.line| && AllSpaces(c.line[c.offset..c.offset + required]))
            && (r.Some? ==>
                  && c.offset <= r.value.offset <= |c.line| && r.value.line == c.line
                  && match container
                     case Quote => AllSpaces(c.line[c.offset..c.next]) && r.value.offset == ConsumeQuoteMarker(c).offset
                     case Item(required, _) =>
                       && AllSpaces(c.line[c.offset..r.value.offset])
                       && (r.value.offset == c.offset + required || r.value.offset == |c.line|))
  {
    var rest := c.line[c.offset..];
    assert forall k :: 0 <= k < |rest| ==> rest[k] == c.line[c.offset + k];
    if AllSpaces(rest) {
      assert c.next < |c.line| ==> rest[c.next - c.offset] != SPACE;
    }
    match container
    case Quote =>
    case Item(required, hasChild) =>
      if !c.blank && c.offset + required <= |c.line| {
        var taken := c.line[c.offset..c.offset + required];
        assert required > c.indent ==> taken[c.indent] != SPACE;
        assert required <= c.indent ==> AllSpaces(taken);
      }
  }

  /** A line without the LF, CR or CRLF it ends in. */
  function StripTerminator(text: Text): (r: Text)
    ensures r <= text && (text[|r|..] == [] || text[|r|..] == [LF] || text[|r|..] == [CR] || text[|r|..] == [CR, LF])
    ensures r == text ==> text == [] || (text[|text| - 1] != LF && text[|text| - 1] != CR)
    ensures |text| >= 2 && text[|text| - 2..] == [CR, LF] ==> |r| == |text| - 2
  {
    var body := if |text| > 0 && text[|text| - 1] == LF then text[..|text| - 1] else text;
    if |body| > 0 && body[|body| - 1] == CR then body[..|body| - 1] else body
  }

  function WithoutByteOrderMark(text: Text): Text {
    if |text| > 0 && text[0] == BYTE_ORDER_MARK then text[1..] else text
  }

  /** The physical lines of a native line: a lone CR ends one. There is always at least one. */
  function SplitAtCr(body: Text): (lines: seq<Text>)
    ensures |lines| >= 1
    ensures CR !in body <==> |lines| == 1
    decreases |body|
  {
    var at := IndexFrom(body, CR, 0);
    if at == |body| then [body]
    else
      assert body[at] == CR;
      [body[..at]] + SplitAtCr(body[at + 1..])
  }

  /** The physical lines, joined by CR, are the native line, and none holds a CR. */
  lemma {:induction false} SplitAtCrJoins(body: Text, k: nat)
    requires k < |SplitAtCr(body)|
    ensures Join(SplitAtCr(body), CR) == body && CR !in SplitAtCr(body)[k]
    decreases |body|
  {
    hide Join, IndexFrom;
    var at := IndexFrom(body, CR, 0);
    if at < |body| {
      var rest := SplitAtCr(body[at + 1..]);
      assert SplitAtCr(body) == [body[..at]] + rest;
      SplitAtCrJoins(body[at + 1..], if k == 0 then 0 else k - 1);
      JoinFirst(body[..at], rest);
      assert body == body[..at] + [CR] + body[at + 1..];
    } else {
      JoinOne(body);
    }
  }

  lemma JoinFirst(piece: Text, rest: seq<Text>)
    requires rest != []
    ensures Join([piece] + rest, CR) == piece + [CR] + Join(rest, CR)
  {
    assert ([piece] + rest)[1..] == rest;
  }

  lemma JoinOne(piece: Text)
    ensures Join([piece], CR) == piece
  {
  }

  predicate IsSpaceCharacter(c: CodeUnit) {
    || 0x09 <= c <= 0x0D || c == 0x20 || c == 0xA0 || c == 0x1680 || 0x2000 <= c <= 0x200A
    || c == 0x2028 || c == 0x2029 || c == 0x202F || c == 0x205F || c == 0x3000 || c == 0xFEFF
  }

  predicate IsSpace(c: CodeUnit) { c == SPACE }

  function RunLength(s: Text, p: CodeUnit -> bool): (n: nat)
    ensures n <= |s|
    ensures forall k :: 0 <= k < n ==> p(s[k])
    ensures n < |s| ==> !p(s[n])
  {
    if |s| == 0 || !p(s[0]) then 0 else 1 + RunLength(s[1..], p)
  }

  /** The depth of an ATX heading opener: one to six `#`, then a space or the end; zero otherwise. */
  function AtxDepth(rest: Text): (depth: nat)
    ensures depth <= 6
  {
    var run := RunLength(rest, c => c == HASH);
    if 1 <= run <= 6 && (run == |rest| || rest[run] == SPACE) then run else 0
  }

  datatype ListItem = ListItem(offset: nat, required: nat)

  /** The length of a list marker at the start of `rest`, zero when there is none. */
  function ListMarkerLength(rest: Text, interruptsParagraph: bool): (n: nat)
    ensures n <= |rest|
  {
    if |rest| > 0 && (rest[0] == STAR || rest[0] == PLUS || rest[0] == MINUS) then 1
    else
      var digits := RunLength(rest, c => 0x30 <= c <= 0x39);
      if !(1 <= digits <= 9) || digits == |rest| || !(rest[digits] == DOT || rest[digits] == PAREN) then 0
      else if interruptsParagraph && rest[..digits] != [0x31] then 0
      else digits + 1
  }

  /**
   A list item opener at `next`. Its content offset lies strictly after the marker's start and inside
   the line, which is what makes the block-opening loop advance.
   */
  function ListItemStart(line: Text, offset: nat, next: nat, interruptsParagraph: bool): (r: Option<ListItem>)
    requires offset <= next <= |line|
    ensures r.Some? ==> next < r.value.offset <= |line|
    ensures r.Some? ==> r.value.required > next - offset
  {
    var markerLength := ListMarkerLength(line[next..], interruptsParagraph);
    var markerEnd := next + markerLength;
    if || markerLength == 0
       || (markerEnd < |line| && line[markerEnd] != SPACE)
       || (interruptsParagraph && RunLength(line[markerEnd..], IsSpaceCharacter) == |line| - markerEnd)
    then None
    else if markerEnd == |line| then Some(ListItem(markerEnd, next - offset + markerLength + 1))
    else
      var run := RunLength(line[markerEnd + 1..], IsSpace);
      var spaces := 1 + if run < 4 then run else 4;
      if spaces >= 5 || markerEnd + spaces >= |line|
      then Some(ListItem(markerEnd + 1, next - offset + markerLength + 1))
      else Some(ListItem(markerEnd + spaces, next - offset + markerLength + spaces))
  }

  /** A bullet, or up to nine digits and a dot or a parenthesis; only the number 1 interrupts a paragraph. */
  predicate IsMarker(m: Text, interruptsParagraph: bool) {
    || (|m| == 1 && (m[0] == STAR || m[0] == PLUS || m[0] == MINUS))
    || (2 <= |m| <= 10 && (m[|m| - 1] == DOT || m[|m| - 1] == PAREN)
        && (forall k :: 0 <= k < |m| - 1 ==> 0x30 <= m[k] <= 0x39)
        && (interruptsParagraph ==> m[..|m| - 1] == [0x31]))
  }

  lemma MarkerIs(rest: Text, interruptsParagraph: bool, n: nat)
    requires 0 < n <= |rest|
    ensures ListMarkerLength(rest, interruptsParagraph) == n <==> IsMarker(rest[..n], interruptsParagraph)
  {
    var digits := RunLength(rest, c => 0x30 <= c <= 0x39);
    assert rest[..n][..n - 1] == rest[..n - 1];
    if IsMarker(rest[..n], interruptsParagraph) && n >= 2 {
      assert rest[..n][n - 1] == rest[n - 1] && digits >= n - 1;
      assert forall k :: 0 <= k < n - 1 ==> rest[..n][k] == rest[k];
    }
  }

  /** A marker at `next` that opens an item: a space or the end follows, and an interrupting item has content. */
  ghost predicate Opens(line: Text, next: nat, interruptsParagraph: bool, n: nat) {
    && 0 < n && next + n <= |line| && IsMarker(line[next..next + n], interruptsParagraph)
    && (next + n == |line| || line[next + n] == SPACE)
    && (interruptsParagraph ==> exists k :: next + n <= k < |line| && !IsSpaceCharacter(line[k]))
  }

  /** Where an item's content starts after its marker, and the indent its later lines need. */
  ghost predicate ContentAt(line: Text, offset: nat, markerEnd: nat, item: ListItem) {
    && markerEnd <= item.offset <= |line| && item.offset <= markerEnd + 4 && AllSpaces(line[markerEnd..item.offset])
    && (markerEnd < |line| ==> markerEnd < item.offset)
    && item.required == markerEnd - offset + (if markerEnd == |line| then 1 else item.offset - markerEnd)
    && (item.offset > markerEnd + 1 ==> item.offset < |line| && line[item.offset] != SPACE)
    && (item.offset == markerEnd + 1 && item.offset < |line| && line[item.offset] == SPACE ==>
          AllSpaces(line[item.offset..])
            || (item.offset + 4 <= |line| && AllSpaces(line[item.offset..item.offset + 4])))
  }

  lemma ItemContent(line: Text, offset: nat, next: nat, interruptsParagraph: bool)
    requires offset <= next <= |line|
    ensures var r := ListItemStart(line, offset, next, interruptsParagraph);
            r.Some? ==> ContentAt(line, offset, next + ListMarkerLength(line[next..], interruptsParagraph), r.value)
  {
    hide RunLength, ListMarkerLength, IsSpaceCharacter;
    var end := next + ListMarkerLength(line[next..], interruptsParagraph);
    var r := ListItemStart(line, offset, next, interruptsParagraph);
    if r.Some? && end < |line| {
      var run := RunLength(line[end + 1..], IsSpace);
      SpacesAfter(line, end);
      assert r.value.required == end - offset + r.value.offset - end;
      if run >= 4 || end + 1 + run == |line| {
        assert r.value.offset == end + 1;
      } else {
        assert r.value.offset == end + 1 + run;
      }
      hide ListItemStart;
    }
  }

  lemma OpensAtMarker(line: Text, offset: nat, next: nat, interruptsParagraph: bool)
    requires offset <= next <= |line|
    ensures ListItemStart(line, offset, next, interruptsParagraph).Some?
       <==> Opens(line, next, interruptsParagraph, ListMarkerLength(line[next..], interruptsParagraph))
  {
    var n := ListMarkerLength(line[next..], interruptsParagraph);
    assert line[next..][..n] == line[next..next + n];
    if n > 0 { MarkerIs(line[next..], interruptsParagraph, n); }
    RestIsBlank(line, next + n);
    hide RunLength, ListMarkerLength, IsSpaceCharacter, IsMarker;
  }

  /**
   An item opens exactly at such a marker. Its content starts after the one to four spaces that follow, or
   after one when there are more or nothing else; later lines need that much indent.
   */
  lemma ItemOpens(line: Text, offset: nat, next: nat, interruptsParagraph: bool, n: nat)
    requires offset <= next <= |line|
    ensures var r := ListItemStart(line, offset, next, interruptsParagraph);
            && (Opens(line, next, interruptsParagraph, n) ==> r.Some? && ContentAt(line, offset, next + n, r.value))
            && (r.Some? ==> Opens(line, next, interruptsParagraph, ListMarkerLength(line[next..], interruptsParagraph)))
  {
    hide ListItemStart, ListMarkerLength, ContentAt;
    OpensAtMarker(line, offset, next, interruptsParagraph);
    ItemContent(line, offset, next, interruptsParagraph);
    if Opens(line, next, interruptsParagraph, n) {
      assert line[next..][..n] == line[next..next + n];
      MarkerIs(line[next..], interruptsParagraph, n);
    }
  }

  lemma RestIsBlank(line: Text, from: nat)
    requires from <= |line|
    ensures RunLength(line[from..], IsSpaceCharacter) == |line| - from <==>
      forall k :: from <= k < |line| ==> IsSpaceCharacter(line[k])
  {
    var n := RunLength(line[from..], IsSpaceCharacter);
    assert forall k :: from <= k < |line| ==> line[k] == line[from..][k - from];
    if n < |line| - from {
      assert !IsSpaceCharacter(line[from + n]);
    }
  }

  lemma SpacesAfter(line: Text, from: nat)
    requires from < |line|
    ensures var run := RunLength(line[from + 1..], IsSpace);
            && from + 1 + run <= |line| && (forall k :: from < k <= from + run ==> line[k] == SPACE)
            && (from + 1 + run < |line| ==> line[from + 1 + run] != SPACE)
  {
    var rest := line[from + 1..];
    assert forall k :: from < k < |line| ==> line[k] == rest[k - from - 1];
  }
}
