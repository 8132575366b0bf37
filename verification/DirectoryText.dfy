/** What a directory listing says: its entries' lines, and how to read on. */
module DirectoryText {
  import opened Text
  import opened Decimal
  import opened Selectors
  import opened SelectorText
  import opened Continuation
  import opened ModelText
  import opened DirectoryPage

  /**
   The notice of a page that continues at entry `next`: it counts the entries left, and names the path with a
   selector that reads back as every entry from there on.
   */
  lemma NoticeSays(path: Text, count: nat, next: nat) returns (left: Text, selector: Text)
    requires next < count <= MAX_SAFE_INTEGER
    ensures Notice(path, count, next)
         == Lit("[") + left + Lit(" more ") + (if count - next == 1 then Lit("entry") else Lit("entries"))
           + Lit(". Use ") + path
            + Lit(":") + selector + Lit(" to continue]")
    ensures AllDigits(left) && Value(left) == count - next
    ensures var parsed := ParseSelector(selector);
            parsed.Some? && forall entry: nat :: entry < count ==>
              (DenotesAny(parsed.value, count, entry) <==> next <= entry)
  {
    hide ParseSelector, Digits;
    left, selector := Digits(count - next), FormatOpen(next + 1);
    ValueOfDigits(count - next);
    OpenMeans(count, next);
    assert Lit("- to continue]") == [DASH] + Lit(" to continue]");
    hide Lit;
    var before := Lit("[") + left + Lit(" more ") + Entries(count - next) + Lit(". Use ") + path + Lit(":");
    assert before + Digits(next + 1) + ([DASH] + Lit(" to continue]"))
      == before + (Digits(next + 1) + [DASH]) + Lit(" to continue]");
  }

  /** A listing renders as its content without the last newline, and the notice, if it is cut, on a line below. */
  lemma ListingRenders(l: Listing)
    requires Body(l.content) != []
    ensures ListingWidth(l)
         == |Body(l.content)| + if l.truncated && l.nextOffset.Some?
           then |[LF] + Notice(l.path, l.entryCount, l.nextOffset.value)| else 0
  {
    hide Notice;
  }

  /** How each kind of entry is listed. */
  lemma EntryLinesAre(name: Text, path: Text, kind: Kind, target: LinkTarget)
    ensures FormatEntry(Entry(name, Directory, target), INDENT) == Lit("  - ") + name + Lit("/")
    ensures FormatEntry(Entry(name, File, target), INDENT) == Lit("  - ") + name
    ensures FormatEntry(Entry(name, Special, target), INDENT) == Lit("  - ") + name + Lit("?")
    ensures FormatEntry(Entry(name, Symlink, Nowhere), INDENT) == Lit("  - ") + name + Lit("@")
    ensures FormatEntry(Entry(name, Symlink, ToDirectory(path)), INDENT) == Lit("  - ") + name + Lit("@/ -> ") + path
    ensures FormatEntry(Entry(name, Symlink, ToFile(path)), INDENT) == Lit("  - ") + name + Lit("@ -> ") + path
    ensures FormatEntry(Entry(name, Symlink, Unresolved(path)), INDENT) == Lit("  - ") + name + Lit("@? -> ") + path
  {
    assert INDENT + Lit("- ") == Lit("  - ");
  }

  /**
   A flat page of a level says that it is cut, and names the entry it continues at, exactly when entries follow
   those it shows; its text holds the header and those entries, one a line.
   */
  lemma FlatPageSays(header: Text, lines: seq<Text>, offset: nat, count: nat, cap: int)
    requires DirectoryPage.Window(header, lines, offset, count) && FlatPage(header, lines, offset, count, cap).Listed?
    ensures var r := FlatPage(header, lines, offset, count, cap);
            && r.entries <= |lines| && r.page.path == header && r.page.entryCount == count
            && r.page.content == Join([header] + lines[..r.entries], LF) + [LF]
            && (r.page.truncated <==> offset + r.entries < count)
            && r.page.nextOffset == (if offset + r.entries < count then Some(offset + r.entries) else None)
  {
    hide ListingWidth;
    LargestPage(header, lines, offset, count, cap);
    assert lines[..|lines|] == lines;
  }
}
