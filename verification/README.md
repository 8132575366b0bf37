# llame, modelled and proved in Dafny

llame lets a model work on files, run commands and reach other machines. This project models five of its
stateful kernels and proves what they are for:

- **The Markdown block scanner** (`MarkdownSyntax`, `Outline`, `ScannerModel`, `ScannerProofs`, `ScannerRuns`,
  `RootLines`, `ContainerLines`, `DocumentOutline`, `Frontmatter`, `MarkdownScanner`, `MarkdownAncestors`): one pass over
  native lines that keeps lines back until later ones decide them (Setext headings and link reference definitions,
  sections 4.3 and 4.7 of the CommonMark Spec). Every line is reported once, in order and with its text; which lines are
  headings, and how deep, is told from their text; every root heading gets one span; the ancestor tracker's stack at a
  line is exactly the headings whose section covers it.
- **The machine wire protocol** (`Multiplexer`, `MultiplexerProofs`, `MultiplexerSteps`, `FrameMultiplexer`, `WirePair`,
  `WireDelivery`, `Daemon`, `DaemonRuns`, `DaemonContract`, `MachineSession`, `Framer`, `FrameCodec`, `FrameForms`,
  `LawfulCodec`, `Wire`, `LongIds`): JSON-RPC 2.0 over numbered streams between a hub and a daemon. In every interleaving
  a call settles only with the answer to that call, and an aborted one ends on both sides; nothing runs before the
  handshake; a stream is kept open exactly as its method asks; nothing is written after the end; and a line framer and
  codec leave the other endpoint as if it had been handed the frames themselves, however the bytes are chunked.
- **Managed commands** (`Decoding`, `Utf8Encoding`, `OutputBound`, `ProtectedValues`, `Redaction`, `Sanitize`,
  `Provenance`, `Capture`, `Watcher`, `WatchVerdict`): capturing output under a bound, redacting protected values even
  when the capture stops inside one, and settling one result out of racing events.
- **Bounded paged reads** (`Decimal`, `Selectors`, `SelectorText`, `SelectorForms`, `Continuation`, `ModelText`,
  `PageText`, `SourceLines`, `StreamRead`, `Paging`, `DirectoryPage`, `DirectoryText`, `DirectoryListing`,
  `DirectoryTree`): the selector algebra, pages packed under a rendered width, what their text says, continuations that
  read back, a streaming reader that agrees with the one in memory, and directory listings.
- **Name suggestions** (`EditDistance`, `EditScripts`, `EditMetric`, `ReadSuggestions`, `SuggestionScore`): the
  unrestricted Damerau-Levenshtein table in flat 16-bit cells, and that what it computes is the least number of single
  edits.

Text is a sequence of UTF-16 code units, as the source's strings are. Objects the source updates in place are classes
whose methods are proved equal to functions on a datatype of their fields; the theorems are about those functions.
What is outside a kernel is a parameter: the scanner's line classifiers, the handlers, JSON text, timers, process
probes, the byte decoder, and the rule that neutralizes reserved delimiters. The laws asked of JSON text and of the
decoder are met by a codec (`LawfulCodec.PlainIsLawful`) and by UTF-8 (`Decoding.Utf8IsLawful`).

## What was found

Ten properties hold only under a condition, or not as one would first state them. Each has a member that shows the
failing case and one that says when the code meets the property, for all inputs.

- A command that exits can be reported untruncated although bytes it wrote are not shown: its decoder still held them
  (`Capture.HeldBytesGoUnreported`, with the output of `Capture.HalfCharacter`). Of a result that is not truncated,
  everything is shown exactly when neither decoder holds bytes (`Capture.CloseExited`); a command stopped at its
  deadline reports them (`Capture.CloseTimedOut`).
- The framer measures a surrogate pair split between string chunks as two halves, and reports a line that fits as too
  long (`Framer.SplitPairIsMiscounted`). A line's event is its text's exactly when the line is too long anyway or fits
  with its split pairs counted as halves (`Framer.LineExactly`, `Framer.ChunksMakeNoDifference`); so frames arrive
  exactly then (`FrameCodec.ChunkedFrames`), and always when bytes are pushed (`Wire.BytesNeverSplit`).
- An endpoint that both accepts and opens streams can hand out an id the peer used
  (`MultiplexerProofs.MixedRoleReusesAnId`): after any run it does exactly when one of the peer's requests took its next
  id (`MultiplexerProofs.OpenCollides`), and in a fixed role never (`MultiplexerProofs.NeverReopened`).
- An oversize answer on the control stream goes out under id 0. It settles its call exactly when that call was the first
  on the stream (`WirePair.FallbackReachesOnlyTheFirst`); a run leaves the second one waiting for good
  (`WirePair.SecondControlCallWaits`).
- An answer too large to be written makes its stream be refused, and so does a refusal too large to be written, without
  end (`LongIds.LongIdRunsAway`, under an id whose own request is within the bound). Writing ends exactly when the frame
  fits, its stream is not open, or the refusal under the request's own id fits (`Wire.WriteEnds`,
  `Wire.RefusalNeedsRoom`).
- A directory entry with a newline in its name is counted as several, and entries after it are passed over
  (`DirectoryPage.NewlineSkipsAnEntry`), or the page continues past the level's end
  (`DirectoryPage.MiscountPassesTheEnd`). A listing's text gives back its entries exactly when no line has a newline
  (`DirectoryPage.ContentSplits`, `DirectoryPage.EntriesSplit`), and a cut page passes over only what it shows exactly
  when it keeps no more pieces than there are entries and each of those is one line (`DirectoryPage.MiscountSkips`).
- A numbered read can fail to advance: when the line before its window fits the page and then leaves no room for the
  first line asked for (`Paging.ReadCanStall`, `Paging.NumberedAdvances`).
- A tree listing can be reported untruncated and without its child blocks: when the level fits flat, but neither with
  its markers nor as a header with a continuation (`DirectoryListing.BlockCanGoUnsaid`,
  `DirectoryListing.UntruncatedShowsAll`).
- A cut comma read over a source of known length can print a continuation that no reader accepts, or one that reads
  lines nobody asked for (`Continuation.CutOnContext`). It is accepted exactly when every range starts inside the source
  (`Continuation.ContinuationReads`), and means exactly the lines owed exactly when, besides, the last range reaches past
  the resume line (`Continuation.ContinuesExactly`); otherwise it is everything from there on
  (`Continuation.NothingOwedReadsOn`).
- A sanitized output can spell a protected value: where one shorter than the marker was removed
  (`Provenance.ShortValueCanBeRead`), off a marker itself (`Provenance.ValueCanBeReadOffTheMarker`), and where the parts
  around a gap meet (`Provenance.GapCanShowAValue`, with sixteen different characters). When every value is at least as
  long as the marker and apart from it, none can be read without a gap, and around a gap one can exactly when what is
  left of head and tail spells it where they meet (`Provenance.WhatCanBeRead`). For any values it takes a seam, a place
  where something was marked, removed or left out (`Provenance.ReadOnlyAcrossSeams`).

Two smaller differences: a line wider than the cap is retried by a read in memory and skipped by the stream
(`SourceLines.WideLineParts`); and a single range cut on the line of context after it, with nothing of it left to show,
prints a continuation that reads everything from there on (`Continuation.SingleResumes`, `PageText.ContinuationSays`).

## Model

| member | source | states |
|---|---|---|
| MarkdownSyntax.Cursor.Advance | packages/native-file-tools/src/markdown-syntax.ts:224-229 | the cursor moves over blanks only, never past the line's end |
| MarkdownSyntax.AdvanceCursor | packages/native-file-tools/src/markdown-syntax.ts:224-229 | the loop stops at the first character that is not blank |
| MarkdownSyntax.QuoteMarkerTaken | packages/native-file-tools/src/markdown-syntax.ts:231-234 | the marker taken is `>` and the one blank after it, if there is one; further blanks stay |
| MarkdownSyntax.ContinuesExactly | packages/native-file-tools/src/markdown-syntax.ts:256-270 | a quote goes on exactly with `>` behind at most three blanks, an item with its own indent, or blank once it has a child; what is taken is that prefix |
| MarkdownSyntax.StripTerminator | packages/native-file-tools/src/markdown-syntax.ts:39-41 | what is taken off is one LF, CR or CRLF at the end, a CRLF whole, or nothing, and nothing only from a text that ends in neither |
| MarkdownSyntax.SplitAtCrJoins | packages/native-file-tools/src/markdown-structure.ts:217-238 | the physical lines of a native line hold no CR and, joined by CR, are the native line |
| MarkdownSyntax.ItemOpens | packages/native-file-tools/src/markdown-syntax.ts:186-213 | an item opens exactly at a bullet or a number of up to nine digits followed by a blank or the end, only a non-empty item or number 1 inside a paragraph; its content starts after one to four blanks |
| Outline.FirstShallow | packages/native-file-tools/src/markdown-structure.ts:260-272 | the first later heading that is not deeper closes a section: all before it are deeper, it is not |
| Outline.SectionEndsBeforeCloser | packages/native-file-tools/src/markdown-structure.ts:260-272 | a section ends just before the heading that closes it, else at the last line, and never before its own heading ends |
| Outline.SectionsAreLaminar | packages/native-file-tools/src/markdown-structure.ts:260-272 | of two sections the later is inside the earlier or wholly after it, decided by which heading closes it |
| Outline.StackDeepens | packages/native-file-tools/src/markdown-structure.ts:264-272 | the open headings get strictly deeper toward the top of the stack |
| Outline.PopWhileOpening | packages/native-file-tools/src/markdown-structure.ts:264-272 | a popped heading is one the new heading closes, and its section ends before the new heading's line |
| Outline.FinishOpening | packages/native-file-tools/src/markdown-structure.ts:264-272 | once every deeper or equal heading is popped, the stack and the closed headings account for all headings again |
| ScannerProofs.OpenHeadingSpans | packages/native-file-tools/src/markdown-structure.ts:260-272 | opening a heading emits one span for every heading it closes, ending where its section ends |
| ScannerProofs.ClosedLeafReleases | packages/native-file-tools/src/markdown-structure.ts:274-284 | closing the open paragraph makes every line it held content and changes no other line |
| ScannerProofs.SetextOwners | packages/native-file-tools/src/markdown-structure.ts:308-339 | after a Setext underline the paragraph's lines, those of its definitions excepted, and the underline belong to the new heading, and every other line to the heading it belonged to |
| ScannerProofs.OpenBlocksKeeps | packages/native-file-tools/src/markdown-structure.ts:407-482 | opening containers and leaves keeps the account of lines, headings and spans, whatever the classifiers say |
| ScannerProofs.ScanPhysicalPlaced | packages/native-file-tools/src/markdown-structure.ts:341-360 | one physical line is placed: the line entry is marked or held, and the books still balance |
| ScannerRuns.FlushReports | packages/native-file-tools/src/markdown-structure.ts:240-258 | flushing reports the decided lines in order and changes nothing else |
| ScannerRuns.PushOk | packages/native-file-tools/src/markdown-structure.ts:158-173 | one more native line keeps the session's invariant, inside and outside frontmatter |
| ScannerRuns.EndCompletes | packages/native-file-tools/src/markdown-structure.ts:175-211 | the end replays unclosed frontmatter and settles every line and every open section |
| ScannerRuns.WholeScan | packages/native-file-tools/src/markdown-structure.ts:144-272 | for every document and every handlers: reported lines are the first lines with their exact text; a scan never stopped reports all of them and one span per root heading; without lone CRs a line belongs to exactly the heading that covers it |
| RootLines.AtxIsHeading | packages/native-file-tools/src/markdown-structure.ts:501-516 | a line of one to six `#` outside every container is one heading, of that depth, on this line; whatever was open is closed |
| RootLines.UnderlineMakesHeading | packages/native-file-tools/src/markdown-structure.ts:308-339 | an underline below an open root paragraph makes one heading, from the first line its definitions leave to this one: depth 1 under `=`, depth 2 under `-` |
| RootLines.FenceStarts | packages/native-file-tools/src/markdown-structure.ts:461-465 | a fence opener outside every container starts a code block, and is content |
| RootLines.HtmlStarts | packages/native-file-tools/src/markdown-structure.ts:466-471 | so does an HTML block, which may end with the line it starts on; the last kind does not interrupt a paragraph |
| RootLines.ThematicBreaks | packages/native-file-tools/src/markdown-structure.ts:476-480 | a thematic break that makes no heading is content, and closes what was open |
| RootLines.TextJoins | packages/native-file-tools/src/markdown-structure.ts:518-530 | text that starts nothing joins the open paragraph and waits with it; in a container that did not go on it is a lazy line |
| RootLines.TextStarts | packages/native-file-tools/src/markdown-structure.ts:531-541 | where no paragraph is open it starts a root paragraph, whose text is kept only while it may be a definition |
| RootLines.DeepTextJoins | packages/native-file-tools/src/markdown-structure.ts:484-488 | in a paragraph a line of four blanks or more is text |
| RootLines.DeepTextIsCode | packages/native-file-tools/src/markdown-structure.ts:484-488 | where no paragraph is open it is indented code |
| RootLines.FenceEnds | packages/native-file-tools/src/markdown-structure.ts:372-381 | the closing fence is content and ends its block |
| RootLines.FenceGoesOn | packages/native-file-tools/src/markdown-structure.ts:131-142 | any other line of a fenced block is content, whatever its text, and leaves it open |
| RootLines.HtmlGoesOn | packages/native-file-tools/src/markdown-structure.ts:542-550 | a line of an HTML block is content; a closing text ends the first five kinds |
| RootLines.BlankLine | packages/native-file-tools/src/markdown-structure.ts:274-282 | a blank line ends a paragraph, whose lines become content, and an HTML block of the last kinds |
| ContainerLines.HeadingsOnlyAtTheRoot | packages/native-file-tools/src/markdown-structure.ts:341-360 | a line opens at most one heading, and then no container and no leaf is open |
| ContainerLines.CarriedContainersStay | packages/native-file-tools/src/markdown-structure.ts:362-370 | the containers whose prefixes a line carries stay open, in order, and what it opens comes after them; an item that text continues has a child |
| ContainerLines.QuoteStarts | packages/native-file-tools/src/markdown-structure.ts:427-431 | a line with `>` outside every container opens a quote, and is no heading |
| ContainerLines.ItemStarts | packages/native-file-tools/src/markdown-structure.ts:432-450 | a list marker outside every container opens an item of its content's indent, with a child exactly where text follows, and is no heading |
| DocumentOutline.HeadingsOfDocument | packages/native-file-tools/src/markdown-structure.ts:144-272 | end to end, for documents of headings, prose and blank lines: the headings found are those the lines say, with depths, lines and titles |
| DocumentOutline.ByteOrderMarkIsIgnored | packages/native-file-tools/src/markdown-structure.ts:217-226 | a byte order mark is no part of the first line, and is one of any other |
| Frontmatter.FrontmatterIs | packages/native-file-tools/src/markdown-structure.ts:190-211 | when the first line opens frontmatter and line m is the first to close it, the first m lines are reported as frontmatter and one span covers them, before any other |
| Frontmatter.NoFrontmatter | packages/native-file-tools/src/markdown-structure.ts:158-188 | when no line closes it, all lines are scanned as Markdown from the first on |
| MarkdownScanner.Scanner.CloseLeaf | packages/native-file-tools/src/markdown-structure.ts:274-284 | the pending counts of the queue entries drop by the paragraph's lines, as the model's released lines |
| MarkdownScanner.Scanner.AddParagraphLine | packages/native-file-tools/src/markdown-structure.ts:293-306 | a held line raises its entry's pending count |
| MarkdownScanner.Scanner.Setext | packages/native-file-tools/src/markdown-structure.ts:308-339 | the object's queue and headings become the model's |
| MarkdownScanner.Scanner.OpenHeading | packages/native-file-tools/src/markdown-structure.ts:264-272 | the object's stack loop is the model's account of closed sections |
| MarkdownScanner.Scanner.MatchContainers | packages/native-file-tools/src/markdown-structure.ts:362-370 | the loop over the open containers is the model's matching |
| MarkdownScanner.Scanner.OpenBlocks | packages/native-file-tools/src/markdown-structure.ts:407-482 | the loop opens containers while the cursor advances, and ends; at most 64 are open |
| MarkdownScanner.Scanner.AddContent | packages/native-file-tools/src/markdown-structure.ts:518-551 | the object's leaf and marks become the model's |
| MarkdownScanner.Scanner.ScanPhysical | packages/native-file-tools/src/markdown-structure.ts:341-360 | one physical line on the object is one on the model |
| MarkdownScanner.Scanner.Flush | packages/native-file-tools/src/markdown-structure.ts:240-258 | the queue's head is reported while nothing is pending on it |
| MarkdownScanner.Scanner.Push | packages/native-file-tools/src/markdown-structure.ts:158-173 | pushing on the object is pushing on the model; the result says whether to go on |
| MarkdownScanner.Scanner.End | packages/native-file-tools/src/markdown-structure.ts:175-211 | ending the object is ending the model |
| MarkdownScanner.ScanDocument | packages/native-file-tools/src/markdown-structure.ts:553-569 | what the object reports for a whole document is what the whole-scan theorem says |
| MarkdownAncestors.MarkdownAncestorTracker.Accept | packages/native-file-tools/src/markdown-ancestors.ts:120-134 | the tracker's stack after a line is the model's |
| MarkdownAncestors.TrackIsCovering | packages/native-file-tools/src/markdown-ancestors.ts:110-149 | the stack after a line is exactly the headings whose section covers it |
| MarkdownAncestors.AncestorsOfScan | packages/native-file-tools/src/markdown-ancestors.ts:110-149 | so for every complete scan of a source without lone CRs |
| MultiplexerProofs.CloseStreamKeeps | packages/machine-protocol/src/multiplexer.ts:180-198 | ending a stream spends its id, fails what waited on it and nothing else, and keeps ids, streams and calls in order |
| MultiplexerProofs.CancelStreamKeeps | packages/machine-protocol/src/multiplexer.ts:206-218 | a cancellation ends a numbered stream, and on the control stream only what waits; no other call is touched |
| MultiplexerProofs.AnswerSettles | packages/machine-protocol/src/multiplexer.ts:220-231 | an answer to what waits settles that call with its result or error and touches no other stream; any other answer changes nothing |
| MultiplexerProofs.SettleStreamKeeps | packages/machine-protocol/src/multiplexer.ts:220-231 | the one call an answer settles is the one that waits on its stream under the id it echoes; otherwise nothing changes |
| MultiplexerProofs.HandleFrameKeeps | packages/machine-protocol/src/multiplexer.ts:233-302 | every received frame keeps the invariant, over the cap and on spent ids too |
| MultiplexerProofs.RequestKeeps | packages/machine-protocol/src/multiplexer.ts:354-408 | a request, refused, aborted, oversize or sent, is settled or waits on exactly one stream |
| MultiplexerProofs.RespondKeeps | packages/machine-protocol/src/multiplexer.ts:328-338 | an answer keeps the invariant |
| MultiplexerProofs.RefuseKeeps | packages/machine-protocol/src/multiplexer.ts:462-478 | so does a refusal |
| MultiplexerProofs.EndedCalls | packages/machine-protocol/src/multiplexer.ts:480-487 | after the session closed nothing waits, and settled are exactly the calls made |
| MultiplexerProofs.StepKeeps | packages/machine-protocol/src/multiplexer.ts:180-487 | every step of a fixed role keeps: open and spent ids disjoint, the cap, one pending request per stream, calls = settled + pending |
| MultiplexerProofs.RunKeeps | packages/machine-protocol/src/multiplexer.ts:180-487 | so in every run; spent ids stay spent and a settled call keeps its outcome |
| MultiplexerProofs.NeverReopened | packages/machine-protocol/src/multiplexer.ts:449-460 | a spent id is never open again |
| MultiplexerProofs.RunUses | packages/machine-protocol/src/multiplexer.ts:269-302 | in every run of an endpoint of any kind the ids used are those it handed out and those the peer's requests took |
| MultiplexerProofs.OpenCollides | packages/machine-protocol/src/multiplexer.ts:449-460 | after any run, in any role: the id handed out is a spent one exactly when the next id is spent, and replaces an open stream exactly when it is open; one of the two exactly when a request of the peer took that id |
| MultiplexerProofs.MixedRoleReusesAnId | packages/machine-protocol/src/multiplexer.ts:449-460 | outside a fixed role an id is reused |
| MultiplexerProofs.CloseOneFirst | packages/machine-protocol/src/multiplexer.ts:480-487 | closing streams one after another ends where closing the session ends |
| FrameMultiplexer.FrameMultiplexer.CloseStream | packages/machine-protocol/src/multiplexer.ts:180-198 | the object's maps become the model's |
| FrameMultiplexer.FrameMultiplexer.CancelStream | packages/machine-protocol/src/multiplexer.ts:206-218 | the object's maps become the model's |
| FrameMultiplexer.FrameMultiplexer.SettleStream | packages/machine-protocol/src/multiplexer.ts:220-231 | the object's maps become the model's |
| FrameMultiplexer.FrameMultiplexer.Handle | packages/machine-protocol/src/multiplexer.ts:269-302 | routing a frame on the object is routing it on the model, with the same delivery, and keeps the invariant |
| FrameMultiplexer.FrameMultiplexer.Respond | packages/machine-protocol/src/multiplexer.ts:328-338 | the object answers as the model, once on the control stream |
| FrameMultiplexer.FrameMultiplexer.Request | packages/machine-protocol/src/multiplexer.ts:354-408 | the object sends as the model and numbers the call |
| FrameMultiplexer.FrameMultiplexer.Abort | packages/machine-protocol/src/multiplexer.ts:370-408 | the object aborts as the model, which tells the peer and ends the call |
| FrameMultiplexer.FrameMultiplexer.Open | packages/machine-protocol/src/multiplexer.ts:449-460 | a fresh id, neither open nor spent; none exactly when closed or full |
| FrameMultiplexer.FrameMultiplexer.RefuseStream | packages/machine-protocol/src/multiplexer.ts:462-478 | one error frame on an open stream, which then ends |
| FrameMultiplexer.FrameMultiplexer.Close | packages/machine-protocol/src/multiplexer.ts:480-487 | the loop over live streams closes the session as the model does; nothing waits |
| MultiplexerSteps.AbortTells | packages/machine-protocol/src/multiplexer.ts:370-408 | an abort of a waiting call sends one cancel notification on its stream and ends the call as cancelled; where nothing waits, nothing is sent |
| MultiplexerSteps.CallSends | packages/machine-protocol/src/multiplexer.ts:370-408 | a request goes out once, under the stream's number, or on the control stream under how many it carried before |
| MultiplexerSteps.OversizeCallFails | packages/machine-protocol/src/multiplexer.ts:391-405 | a request too large to send is a failed call, and the stream can carry another |
| MultiplexerSteps.CallRefused | packages/machine-protocol/src/multiplexer.ts:353-368 | a closed stream, or one that carries a request, takes none: nothing is sent |
| MultiplexerSteps.AbortedCall | packages/machine-protocol/src/multiplexer.ts:354-368 | a call whose signal aborted before is not sent, and its numbered stream is spent |
| MultiplexerSteps.OpensNext | packages/machine-protocol/src/multiplexer.ts:449-460 | a new stream is open under the next number |
| MultiplexerSteps.TellsOnce | packages/machine-protocol/src/multiplexer.ts:304-326 | a notification goes out on an open stream and nowhere else |
| MultiplexerSteps.AnswersUnderItsId | packages/machine-protocol/src/multiplexer.ts:328-338 | an answer goes out under the id of its stream's request, on the control stream once |
| MultiplexerSteps.RefusesOnce | packages/machine-protocol/src/multiplexer.ts:462-478 | a refusal is one error under the id of the request, or the stream's number, and spends a numbered stream |
| MultiplexerSteps.NotificationDelivered | packages/machine-protocol/src/multiplexer.ts:233-246 | a notification reaches its open stream's handler and changes nothing |
| MultiplexerSteps.CancelReceived | packages/machine-protocol/src/multiplexer.ts:238-242 | a cancellation spends a numbered stream, or drops what the control stream carries; no handler sees it |
| MultiplexerSteps.RequestOpens | packages/machine-protocol/src/multiplexer.ts:258-302 | a request opens its stream, to be answered under its id, and reaches the handler |
| MultiplexerSteps.RequestAtTheCap | packages/machine-protocol/src/multiplexer.ts:289-300 | at the cap it is refused under its id, and its number is spent |
| MultiplexerSteps.RequestOnOpenStream | packages/machine-protocol/src/multiplexer.ts:247-254 | the control stream takes request after request; a numbered stream takes no second one |
| MultiplexerSteps.UnknownFrame | packages/machine-protocol/src/multiplexer.ts:280-288 | any other frame for a stream that is not open is reported as unknown and changes nothing |
| MultiplexerSteps.ClosingEnds | packages/machine-protocol/src/multiplexer.ts:480-487 | the session's end says nothing, spends every open stream, and ends every call that waits as closed |
| WirePair.SettlesItsOwn | packages/machine-protocol/src/multiplexer.ts:220-231 | an answer that matches a waiting request's stream and id was produced for that very call |
| WirePair.FreshOrigin | packages/machine-protocol/src/multiplexer.ts:370-384 | no two calls on the wire share stream and id |
| WirePair.HubReceiveKeeps | packages/machine-protocol/src/multiplexer.ts:269-302 | a frame delivered to the hub keeps the pair's invariant |
| WirePair.DaemonRepliesToControl | apps/machine/src/serve.ts:244-275 | a control request is answered at once with one message behind whatever is on its way, under its own id or, oversize, the fallback |
| WirePair.WorldStepKeeps | packages/machine-protocol/src/multiplexer.ts:180-487 | every step of either side and every delivery keeps the pair's invariant |
| WirePair.AnswersSettleTheirOwnCall | packages/machine-protocol/src/multiplexer.ts:206-256 | in every run over first-in first-out channels a call settles only with the daemon's answer to it, or with the refusal of its own request at the cap |
| WirePair.CallCompletes | packages/machine-protocol/src/multiplexer.ts:370-408 | after every run that leaves nothing on its way and both sides with room: a stream opened, called on, answered and delivered settles that call with the answer's value or error, and no other call |
| WirePair.FallbackReachesOnlyTheFirst | packages/machine-protocol/src/multiplexer.ts:462-478 | a pending control call, its request taken by the daemon and the answer reaching the hub behind any frames that leave the call alone, is settled with the handler's reply; with an oversize one exactly when it was the first on the control stream |
| WirePair.AnswerArrivesAt | packages/machine-protocol/src/multiplexer.ts:220-231 | the same from an answer at any position of the channel to the hub |
| WirePair.ExchangeSettles | packages/machine-protocol/src/multiplexer.ts:328-338 | a whole control exchange of a pair at rest leaves it at rest and the call settled, but for a later oversize reply |
| WirePair.SecondControlCallWaits | packages/machine-protocol/src/multiplexer.ts:462-478 | a run after which the second control call waits, its handler done and nothing on its way |
| WireDelivery.FramesArriveInOrder | packages/machine-protocol/src/multiplexer.ts:269-302 | in every run what one side sent is what the other took, in that order, and then what is on its way |
| WireDelivery.AbortEndsBothSides | packages/machine-protocol/src/multiplexer.ts:370-408 | after any run: an aborted call ends as cancelled, the peer is told, and once it has taken what was on its way and the cancellation, its stream of that id is spent and it answers there no more |
| DaemonRuns.HelloKeeps | apps/machine/src/serve.ts:119-148 | the handshake completes only with the matching version |
| DaemonRuns.HelloAnswered | apps/machine/src/serve.ts:119-148 | bad parameters, another version and the matching one each get their one answer under the asking id, one that does not fit the refusal under the fallback id; another version ends the session |
| DaemonRuns.RequestAnswered | apps/machine/src/serve.ts:181-262 | a numbered request is refused with one error frame, its own or the one for what does not fit, and its stream spent, or its operation starts, recorded to keep its stream exactly when its method does, and nothing is written |
| DaemonRuns.RequestKeeps | apps/machine/src/serve.ts:244-262 | an operation starts only after the handshake |
| DaemonRuns.LineKeeps | apps/machine/src/serve.ts:289-309 | good, bad and oversize lines keep the session's invariant |
| DaemonRuns.FinishedKeeps | apps/machine/src/serve.ts:181-222 | so does an operation that finishes, in time or not |
| DaemonRuns.FinishedAnswers | apps/machine/src/serve.ts:181-222 | an operation that finishes on an open stream writes exactly one frame, its answer, and spends a stream it does not keep |
| DaemonRuns.NothingRunsBeforeHello | apps/machine/src/serve.ts:119-148 | in every run without a matching hello no operation has started |
| DaemonRuns.NothingAfterTheEnd | apps/machine/src/serve.ts:277-287 | once ended, nothing more is written or started, whatever still happens |
| DaemonRuns.AnsweredAtMostOnce | apps/machine/src/serve.ts:181-309 | in every run a numbered stream whose operation does not keep it carries at most one response |
| DaemonContract.StreamsKeptAsAsked | apps/machine/src/serve.ts:200-222 | in every run the stream of an operation is kept open exactly when the method of the first request on it keeps its stream |
| DaemonContract.OneResponseEach | apps/machine/src/serve.ts:200-222 | in every run a stream whose first request is for a method that does not keep it carries at most one response |
| DaemonContract.SpentWhenFinished | apps/machine/src/serve.ts:200-222 | when its operation finishes such a stream is spent; that of a method that keeps it stays open after a result |
| DaemonContract.EndedByTheFirst | apps/machine/src/serve.ts:277-309 | a session ends for the first event that ends one, and not otherwise: the input's end, a line past the bound, or a hello of another version |
| DaemonContract.RequestLine | apps/machine/src/serve.ts:244-262 | a request on a stream of its own is refused with one error under its id and its stream spent, or its operation runs and nothing is written |
| DaemonContract.BadLine | apps/machine/src/serve.ts:289-309 | a line that is no frame refuses the open stream it names, once; one that names none does nothing |
| DaemonContract.SaysOnItsStream | apps/machine/src/serve.ts:224-242 | what an operation says meanwhile goes out on its stream as it is, or spends it when too large |
| DaemonContract.LateFinishSaysNothing | apps/machine/src/serve.ts:200-222 | an operation that finishes after its stream is gone says nothing |
| MachineSession.MachineSession.WriteFrame | apps/machine/src/serve.ts:264-275 | a frame over the bound refuses its stream instead |
| MachineSession.MachineSession.Stop | apps/machine/src/serve.ts:277-287 | the first reason ends the session; later ones change nothing |
| MachineSession.MachineSession.HandleHello | apps/machine/src/serve.ts:119-148 | the object's handshake is the model's |
| MachineSession.MachineSession.RunOperation | apps/machine/src/serve.ts:181-199 | the object refuses or starts an operation as the model, and so records which streams are kept as DaemonContract says |
| MachineSession.MachineSession.HandleRequest | apps/machine/src/serve.ts:244-262 | the object's dispatch is the model's |
| MachineSession.MachineSession.HandleFramerEvent | apps/machine/src/serve.ts:289-309 | the object's handling of a line is the model's |
| MachineSession.MachineSession.Finish | apps/machine/src/serve.ts:200-222 | the object's answer and close are the model's |
| MachineSession.MachineSession.Take | apps/machine/src/serve.ts:119-309 | every event on the object keeps the session's invariant and passes the gate |
| Framer.LineFramer.Push | packages/machine-protocol/src/framer.ts:30-58 | the reports so far are those of the lines read so far, each weighed with its split pairs counted as halves, whatever the chunks; what is held stays within the bound |
| Framer.PieceReports | packages/machine-protocol/src/framer.ts:34-56 | what one piece adds: nothing to a line already reported, one report to a line grown too long, the line a newline ends |
| Framer.LineExactly | packages/machine-protocol/src/framer.ts:43-56 | one line's report is its text's exactly then |
| Framer.ChunksMakeNoDifference | packages/machine-protocol/src/framer.ts:30-58 | the events are those of the text alone exactly when each line is too long anyway or fits with its split pairs counted as halves |
| Framer.SplitPairIsMiscounted | packages/machine-protocol/src/framer.ts:43-50 | a run in which a line that fits is reported too long because a pair was split, and the next line is reported exactly |
| FrameCodec.MessageRoundTrip | packages/machine-protocol/src/frame.ts:62-118 | every message written as a record is read back as it was |
| FrameCodec.OneKindOfMessage | packages/machine-protocol/src/frame.ts:105-118 | a record with an error is never read as anything else, one with a result never as a call |
| FrameCodec.FrameRoundTrip | packages/machine-protocol/src/frame.ts:44-145 | a frame within the message bound is one line within the line bound and decodes to itself |
| FrameCodec.OversizeNamesItsStream | packages/machine-protocol/src/frame.ts:126-145 | a message over the bound is told by the stream it names |
| FrameForms.RecordOf | packages/machine-protocol/src/frame.ts:62-102 | the fields each kind of message is written with, and no others |
| FrameForms.IsMessageRecord | packages/machine-protocol/src/frame.ts:62-124 | which records are messages: exactly those of the three kinds, with the version and ids of the right types |
| FrameForms.NamesNone | packages/machine-protocol/src/frame.ts:126-132 | a line that is no record or names no stream is malformed and names none |
| FrameForms.NamesOne | packages/machine-protocol/src/frame.ts:129-145 | a line that names a stream is a frame of it, an oversize message of it, or malformed under its name |
| FrameForms.WrittenWithin | packages/machine-protocol/src/frame.ts:44-49 | a frame is written exactly when its message is within a mebibyte |
| FrameCodec.EncodedLines | packages/machine-protocol/src/frame.ts:44-60 | the lines of what is written for a sequence of frames are the frames' own lines, with nothing left over |
| FrameCodec.ChunkedFrames | packages/machine-protocol/src/framer.ts:21-60 | however the text is chunked, exactly the frames sent are decoded if and only if every line fits with its split pairs counted as halves; chunks that split none always do |
| FrameCodec.Receive | packages/machine-protocol/src/framer.ts:21-60 | the loop over chunks, events and lines decodes what the log of lines says |
| LawfulCodec.PlainIsLawful | packages/machine-protocol/src/frame.ts:44-60 | the laws asked of the text of JSON can be kept: there is a codec that keeps them |
| Wire.SameMessages | packages/machine-protocol/src/frame.ts:62-118 | an endpoint's messages and the codec's are the same, one for one |
| Wire.EndToEnd | packages/machine-protocol/src/frame.ts:44-145 | what an endpoint sends, encoded, chunked, framed and decoded, leaves the other endpoint as if handed the frames themselves |
| Wire.BytesNeverSplit | packages/machine-protocol/src/framer.ts:30-32 | bytes, however chunked, never reach the framer as a split pair, and decode to the whole text |
| Wire.BytesEndToEnd | packages/machine-protocol/src/framer.ts:30-32 | so for bytes in any chunks that decode to what was sent |
| Wire.WriteEnds | apps/machine/src/serve.ts:264-275 | writing ends exactly when the frame fits, its stream is not open, or its refusal fits; then the frame is written, or dropped, or the stream refused and closed |
| Wire.CapRefusal | packages/machine-protocol/src/multiplexer.ts:286-294 | the refusal at the stream cap, written so, is dropped when it does not fit, and the id is spent all the same |
| Wire.RefusalNeedsRoom | packages/machine-protocol/src/multiplexer.ts:462-478 | on the wire: an oversize answer is refused in its place exactly when the error under the peer's own id is within the message bound |
| LongIds.RequestFitsErrorDoesNot | packages/machine-protocol/src/frame.ts:44-48 | for every method name and every longer error text there is an id under which the request is within the bound and the error is not |
| LongIds.LongIdRunsAway | apps/machine/src/serve.ts:264-275 | a request that arrives as a line within the bound, under an id so long that neither its answer nor the refusal of it is ever written, at any depth |
| OutputBound.BytesJoin | packages/bash-executor/src/output-bound.ts:27-29 | UTF-8 lengths add up, less two where a surrogate pair comes together |
| OutputBound.Utf8CutIndex | packages/bash-executor/src/output-bound.ts:56-72 | the longest prefix in whole code points within the byte limit |
| OutputBound.CutLength | packages/bash-executor/src/output-bound.ts:36-40 | the longest prefix in whole code points within the bound, in either unit |
| OutputBound.CutIsUnique | packages/bash-executor/src/output-bound.ts:36-40 | there is one such prefix |
| OutputBound.WholeFits | packages/bash-executor/src/output-bound.ts:46-49 | nothing is cut exactly when the text measures within the bound |
| Decoding.Utf8IsLawful | packages/bash-executor/src/watch.ts:82-89 | a UTF-8 decoder never takes back what it gave, never gives half a pair, and holds bytes exactly while they are undecided |
| Decoding.HeldExactly | packages/bash-executor/src/watch.ts:295-297 | UTF-8 bytes are held exactly when what follows can still change how they are read |
| Utf8Encoding.DecodesBack | packages/bash-executor/src/watch.ts:382-409 | what UTF-8 writes decodes to the text it was written from, with nothing held back |
| Utf8Encoding.BytesWritten | packages/bash-executor/src/output-bound.ts:27-29 | the byte length a text is measured by is the length of its UTF-8 |
| ProtectedValues.CollectMemberIntervals | packages/runtime-safety/src/protected-values.ts:116-141 | the runs added cover exactly the member's occurrences, overlapping ones too |
| ProtectedValues.MergeIntervals | packages/runtime-safety/src/protected-values.ts:143-161 | sorted, neither overlapping nor touching, covering the same positions |
| ProtectedValues.ProtectedValueIntervals | packages/runtime-safety/src/protected-values.ts:90-109 | a position is in an interval exactly when it belongs to an occurrence of some member |
| Redaction.ReplaceIntervals | packages/bash-executor/src/sanitize.ts:289-305 | the loop replaces each interval, clipped to the end |
| Redaction.ReplacedIsRedaction | packages/bash-executor/src/sanitize.ts:289-305 | what stays is every character outside the intervals, in order, with one marker for each run long enough |
| Sanitize.TrailingMemberPrefixLength | packages/bash-executor/src/sanitize.ts:233-243 | the longest suffix with which some member could begin and go on |
| Sanitize.LeadingMemberSuffixLength | packages/bash-executor/src/sanitize.ts:246-256 | the longest prefix with which some member that began earlier could end |
| Sanitize.ClipIntervals | packages/bash-executor/src/sanitize.ts:220-230 | exactly the positions before the end |
| Sanitize.TailIntervals | packages/bash-executor/src/sanitize.ts:203-218 | exactly the tail's positions past what was dropped, moved to where they stand in the output |
| Sanitize.CrossingIsDropped | packages/bash-executor/src/sanitize.ts:233-243 | an occurrence that runs past the capture starts in what is dropped |
| Sanitize.EnteringIsDropped | packages/bash-executor/src/sanitize.ts:246-256 | an occurrence that enters the tail from before ends in what is dropped |
| Sanitize.RedactedBefore | packages/bash-executor/src/sanitize.ts:151-172 | the kept range is redacted as the whole stream demands, for every continuation |
| Sanitize.GapHidesAll | packages/bash-executor/src/sanitize.ts:180-200 | so are both parts around a gap, for every dropped middle |
| Sanitize.SegmentShrinks | packages/bash-executor/src/sanitize.ts:289-305 | a replaced segment never measures more than what stood there, even when its removal joins surrogates |
| Sanitize.KeepCapture | packages/bash-executor/src/sanitize.ts:151-172 | only a capture llame ended is trimmed; the intervals are the protected positions of the kept range |
| Sanitize.KeepGap | packages/bash-executor/src/sanitize.ts:180-200 | both parts trimmed at the gap, their intervals in joined coordinates |
| Sanitize.SanitizeStream | packages/bash-executor/src/sanitize.ts:134-144 | the output is the redaction of the capture up to the cut, within the bound; truncated exactly when something was dropped or cut |
| Sanitize.SanitizeGap | packages/bash-executor/src/sanitize.ts:134-144 | the same around a gap |
| Sanitize.SanitizeCaptured | packages/bash-executor/src/sanitize.ts:134-305 | for every continuation, or every dropped middle, no character of a protected value survives, all others of the kept range stay in order, as much as the rules allow is kept, and the output measures within the bound |
| Provenance.ReadOnlyAcrossSeams | packages/bash-executor/src/sanitize.ts:134-305 | every character of an output is a marker's or the stream's at a known position outside protected values, and a protected value is read only across a seam |
| Provenance.RedactionShowsNone | packages/bash-executor/src/sanitize.ts:289-305 | no redaction of any part of any stream shows such a value |
| Provenance.WhatCanBeRead | packages/bash-executor/src/sanitize.ts:134-305 | with values as long as the marker and apart from it: none can be read without a gap, for every input; around a gap one can exactly when the parts spell it where they meet |
| Provenance.GapCanShowAValue | packages/bash-executor/src/sanitize.ts:180-200 | a head and a tail, trimmed at the gap, whose rests spell a value of sixteen different characters where they meet, whatever was between them |
| Provenance.ShortValueCanBeRead | packages/bash-executor/src/sanitize.ts:289-305 | every value shorter than the marker whose first character is nowhere else in it is the whole redaction of some stream |
| Provenance.ValueCanBeReadOffTheMarker | packages/bash-executor/src/sanitize.ts:289-305 | every value that begins with the marker's last character, and has it only there, is read off the marker and what follows in some stream |
| Capture.WithLookahead | packages/bash-executor/src/watch.ts:411-420 | the limit leaves room for the longest member after the bound, and no more |
| Capture.AppendCapture | packages/bash-executor/src/watch.ts:428-455 | the capture stays the longest prefix within the limit; overflow exactly when something was left out |
| Capture.CapturedStream.OnStreamData | packages/bash-executor/src/watch.ts:382-404 | bytes keep the capture the longest prefix of their text; output is lost exactly once the capture was full or the text no longer fits |
| Capture.CapturedStream.DiscardIncomplete | packages/bash-executor/src/watch.ts:295-297 | bytes that never became a character are lost |
| Capture.CaptureAll | packages/bash-executor/src/watch.ts:369-404 | for every chunking of the bytes, the captured text is the longest code-point prefix of the whole within the limit |
| Capture.CloseStream | packages/bash-executor/src/watch.ts:457-485 | what a result shows of a stream, for every continuation when llame ended it; truncated exactly when output was lost, trimmed or cut |
| Capture.CloseExited | packages/bash-executor/src/watch.ts:323-354 | truncated exactly when output was lost or a text measures over the bound; when not, everything written is shown exactly when neither decoder holds bytes |
| Capture.HeldBytesGoUnreported | packages/bash-executor/src/watch.ts:323-354 | output that fits and ends inside a character is reported untruncated though it is not all shown |
| Capture.HalfCharacter | packages/bash-executor/src/watch.ts:323-354 | such output under UTF-8: a letter and the first byte of a longer character |
| Capture.CloseTimedOut | packages/bash-executor/src/watch.ts:194-297 | the same at the deadline, where held bytes and streams still open count as lost: untruncated means everything written is shown |
| Capture.StartsWithinBound | packages/bash-executor/src/watch.ts:406-420 | where a member starts before the bound, all of it is in the capture |
| Watcher.TakeKeeps | packages/bash-executor/src/watch.ts:145-215 | every event keeps: settled means delivered once, and anything but an unknown outcome saw the group empty |
| Watcher.OneResult | packages/bash-executor/src/watch.ts:307-367 | in every interleaving at most one result, and a known, timed-out or cancelled one only after a probe made while the command waited found the group empty |
| Watcher.FirstEventDecides | packages/bash-executor/src/watch.ts:145-215 | the result is the one the first racing event stands for, or unknown |
| Watcher.ResultArrives | packages/bash-executor/src/watch.ts:163-215 | a claimed command delivers after at most two waits or drains end |
| Watcher.FirstClaimHolds | packages/bash-executor/src/watch.ts:163-166 | once claimed, later aborts, deadlines, errors and closes change nothing |
| Watcher.WhyUnknown | packages/bash-executor/src/watch.ts:316-354 | the outcome is unknown exactly when the child failed to run or the group was not seen to end |
| WatchVerdict.WhichResult | packages/bash-executor/src/watch.ts:145-354 | exactly which result is delivered and when, read off the event that took the command and how its waits ended: an exited command has a second wait, a timed-out one is reported only after its output is read |
| Selectors.MergeIntervals | packages/native-file-tools/src/path.ts:147-161 | the same lines in sorted, non-touching form |
| Selectors.CanonicalIsUnique | packages/native-file-tools/src/path.ts:147-161 | that form is determined by the lines alone |
| Selectors.ExpandRanges | packages/native-file-tools/src/path.ts:293-300 | one line more on either side, clipped at the first |
| SelectorText.PlacedDenotes | packages/native-file-tools/src/path.ts:198-210 | a placed member holds exactly the lines it means against the count |
| SelectorText.ResolveSelector | packages/native-file-tools/src/path.ts:251-268 | refused exactly when the least start is an empty member's, and then no line of the source was meant; otherwise the window is the exact union of the members |
| SelectorText.ParseSelector | packages/native-file-tools/src/path.ts:176-221 | what parses is one to sixty-four members with bounds in order; what each form means is SelectorForms |
| SelectorText.RangeReads | packages/native-file-tools/src/path.ts:176-186 | a printed range reads back as its bounds, which must be in order |
| SelectorForms.LineReads | packages/native-file-tools/src/path.ts:176-196 | `N` means line N, and is refused exactly when N is no line number |
| SelectorForms.SpanReads | packages/native-file-tools/src/path.ts:176-196 | `N-M` means the lines from N to M, which must be in order |
| SelectorForms.CountReads | packages/native-file-tools/src/path.ts:176-186 | `N+K` means the K lines from N on |
| SelectorForms.ThroughReads | packages/native-file-tools/src/path.ts:188-214 | `N-` means every line of the source from N on |
| SelectorForms.FinalReads | packages/native-file-tools/src/path.ts:188-214 | `-K` means the last K lines of the source |
| SelectorForms.OthersAreRefused | packages/native-file-tools/src/path.ts:164-214 | any other text is refused |
| SelectorForms.ListReads | packages/native-file-tools/src/path.ts:216-221 | a comma list is read exactly when each of at most 64 members is, and means their union |
| Continuation.FindReaching | packages/native-file-tools/src/model-text.ts:184-195 | the first range that reaches the resume line |
| Continuation.OwedLines | packages/native-file-tools/src/model-text.ts:184-195 | the ranges printed are the requested lines from the resume line on |
| Continuation.SingleContinues | packages/native-file-tools/src/model-text.ts:168-176 | a cut single range prints a selector that means exactly the requested lines still owed |
| Continuation.SingleResumes | packages/native-file-tools/src/model-text.ts:168-176 | for every request and resume line: the selector means the requested lines from there on, or everything from there when none is left |
| Continuation.OpenMeans | packages/native-file-tools/src/model-text.ts:168-182 | an open selector means everything from its line on |
| Continuation.MultiContinues | packages/native-file-tools/src/model-text.ts:198-224 | a cut comma request whose ranges all start inside the source, with a line still owed, prints a selector that means exactly the lines owed |
| Continuation.InvertedRangeIsRefused | packages/native-file-tools/src/path.ts:176-186 | a range printed backwards does not parse |
| Continuation.PastEndRangeBreaksContinuation | packages/native-file-tools/src/model-text.ts:184-195 | one range past the last line makes the whole continuation unreadable, wherever it stands |
| Continuation.NothingOwedReadsOn | packages/native-file-tools/src/model-text.ts:184-195 | when no range reaches past the resume line, what is printed reads everything from there on, which nobody asked for |
| Continuation.ContinuationReads | packages/native-file-tools/src/model-text.ts:184-224 | a continuation reads back exactly when every range starts inside the source |
| Continuation.ContinuesExactly | packages/native-file-tools/src/model-text.ts:184-224 | a continuation means exactly the requested lines still owed exactly when every range starts inside the source and the last reaches past the resume line |
| Continuation.UnknownLengthContinues | packages/native-file-tools/src/model-text.ts:198-224 | over a source of unknown length a continuation that owes lines means exactly those |
| Continuation.CutOnContext | packages/native-file-tools/src/model-text.ts:184-224 | both failures at a page cut on a line of context after the first range |
| ModelText.ContinuationAdds | packages/native-file-tools/src/model-text.ts:272-289 | a page that shows lines renders the same without its continuation, or that and a line below |
| PageText.RenderedParts | packages/native-file-tools/src/model-text.ts:272-289 | a rendering is its header, the attribution, the page's lines and the continuation, each on lines of its own |
| PageText.ContinuationSays | packages/native-file-tools/src/model-text.ts:229-270 | the continuation a cut page prints: the number of lines left, and the path, `raw:` exactly for raw sources, and a selector that reads back as the requested lines from the offset on |
| PageText.ContinuationOfUnknown | packages/native-file-tools/src/model-text.ts:229-270 | the same without a count over a source of unknown length |
| PageText.ContinuationWithoutSelector | packages/native-file-tools/src/model-text.ts:229-270 | a source that takes no selector only counts the lines left |
| PageText.WhetherToReadOn | packages/native-file-tools/src/model-text.ts:229-270 | a page prints a continuation exactly when it is cut and, as far as is known, something follows |
| PageText.HeaderNames | packages/native-file-tools/src/model-text.ts:139-166 | the header's selector reads back as exactly the lines shown |
| PageText.TotalSays | packages/native-file-tools/src/model-text.ts:139-166 | its count is the number of lines of the source |
| SourceLines.ReadResult.AppendReadLine | packages/native-file-tools/src/source-lines.ts:141-184 | the object takes a line, passes over context, or is cut, as the model |
| SourceLines.Select | packages/native-file-tools/src/source-lines.ts:87-130 | the loop over the window is the model's page |
| SourceLines.AppendedEnds | packages/native-file-tools/src/source-lines.ts:119-184 | a page stops with the continuation its last line was measured with, or at its window's end |
| PageText.PageIs | packages/native-file-tools/src/source-lines.ts:87-231 | exactly what a read returns: when it is refused, and else from which line it shows how many lines with their numbers, as many as fit, and where it goes on |
| PageText.CutPageSays | packages/native-file-tools/src/source-lines.ts:87-187 | the page of a cut read, rendered, says how to read on: with a selector for the lines still asked for, and the number of lines left |
| SourceLines.PageFits | packages/native-file-tools/src/source-lines.ts:104-184 | every page that shows a line renders within its budget |
| SourceLines.WideLineParts | packages/native-file-tools/src/source-lines.ts:171-181 | a line that does not fit beside others is retried in memory and stepped past by the stream |
| StreamRead.LinesAre | packages/native-file-tools/src/source-lines.ts:74-76 | the lines of a text are those newlines ended, and what is left |
| StreamRead.SourceLineState.TakeSourceFragment | packages/native-file-tools/src/stream-read.ts:57-91 | one fragment yields the line it ends, without its text when it is too wide |
| StreamRead.SourceLinesOf | packages/native-file-tools/src/stream-read.ts:92-127 | for every chunking the streamed lines are the lines of the whole, without those too wide |
| StreamRead.CollectWindow | packages/native-file-tools/src/stream-read.ts:177-203 | the loop over the stream is the model's window |
| StreamRead.StreamMatchesMemory | packages/native-file-tools/src/stream-read.ts:177-203 | for lines within the cap the streamed window is the in-memory page, or both refuse |
| Paging.LinesBeforeWiden | packages/native-file-tools/src/model-text.ts:139-164 | lines before a line never make a page narrower, though the printed range may lose digits |
| Paging.RawPageIs | packages/native-file-tools/src/source-lines.ts:87-184 | a raw page shows consecutive lines that fit and goes on past them, over at most one line too wide for a page of its own |
| Paging.PagesHoldTheSource | packages/native-file-tools/src/source-lines.ts:87-184 | following an unlimited raw read gives exactly the lines that are not too wide for a page of their own |
| Paging.NumberedAdvances | packages/native-file-tools/src/source-lines.ts:132-184 | a numbered read never goes back, and fails to advance exactly when the page shows nothing but the line before its window |
| Paging.ReadCanStall | packages/native-file-tools/src/source-lines.ts:166-181 | such a read exists |
| DirectoryPage.PageWidens | packages/native-file-tools/src/directory-page.ts:54-59 | one line more never makes a narrower page, a wider one when it has two characters, though the notice's count and noun may shrink |
| DirectoryPage.EntryIsLine | packages/native-file-tools/src/directory-listing.ts:162-183 | an entry is one line exactly when neither its name nor what it links to has a newline |
| DirectoryPage.ContentSplits | packages/native-file-tools/src/directory-page.ts:67-69 | the content gives back its header and, exactly when no line has a newline, its entry lines |
| DirectoryPage.EntriesSplit | packages/native-file-tools/src/directory-page.ts:67-69 | so for entries: exactly when no name and no link target has a newline |
| DirectoryPage.MiscountSkips | packages/native-file-tools/src/directory-page.ts:67-75 | a cut page shows as many pieces as it passes over entries; all of those exist and are shown whole exactly when there are enough entries and each is one piece |
| DirectoryPage.NewlineSkipsAnEntry | packages/native-file-tools/src/directory-page.ts:60-90 | under the cap that the two pieces of such a name just fit, the bounded page shows them and continues past the entry after it |
| DirectoryPage.MiscountPassesTheEnd | packages/native-file-tools/src/directory-page.ts:60-90 | a level of one entry whose bounded page continues at an entry the level does not have |
| DirectoryPage.BoundFlatResult | packages/native-file-tools/src/directory-page.ts:60-90 | for every listing: one that fits stays, one with no entry line or none that fits is refused, and else the largest page that fits of those that keep fewer than all lines is kept |
| DirectoryPage.ListWindow | packages/native-file-tools/src/directory-listing.ts:349-369 | on the window of a level without newlines that is the page the search from above finds |
| DirectoryPage.LargestPage | packages/native-file-tools/src/directory-page.ts:60-90 | the kept page fits, keeps an entry and is the largest; refused exactly when not one entry fits |
| DirectoryPage.PagesListEveryEntry | packages/native-file-tools/src/directory-listing.ts:349-369 | where every entry fits with the header, following the pages lists each entry once, in order |
| DirectoryPage.PagesListEntries | packages/native-file-tools/src/directory-listing.ts:349-369 | so for the entries of any level in which no name and no link target has a newline |
| DirectoryText.NoticeSays | packages/native-file-tools/src/model-text.ts:229-270 | the notice counts the entries left and names the path with a selector that reads back as every entry from there on |
| DirectoryText.EntryLinesAre | packages/native-file-tools/src/directory-listing.ts:162-183 | how each kind of entry, and each kind of link, is listed |
| DirectoryText.FlatPageSays | packages/native-file-tools/src/directory-listing.ts:349-369 | a flat page holds its header and its entries, one a line, and is cut, and continues after them, exactly when entries follow |
| DirectoryListing.ElideChildBlocks | packages/native-file-tools/src/directory-listing.ts:476-507 | blocks are elided from the last until the tree fits |
| DirectoryListing.TruncateRequestedLevel | packages/native-file-tools/src/directory-listing.ts:570-600 | the loop over the level is the model's cut |
| DirectoryListing.LevelIsCut | packages/native-file-tools/src/directory-listing.ts:570-600 | after the tree could not be fitted the level's loop never runs out |
| DirectoryTree.TreeShows | packages/native-file-tools/src/directory-listing.ts:509-529 | a tree lists each entry with its children, or with a marker that counts them where they are elided |
| DirectoryTree.TreeChoice | packages/native-file-tools/src/directory-listing.ts:417-474 | the whole tree if it fits, else the one with the fewest blocks elided from the last that fits, else the level cut after as many entries as fit |
| DirectoryListing.UntruncatedShowsAll | packages/native-file-tools/src/directory-listing.ts:417-529 | an untruncated tree shows every entry, and every child block exactly outside one corner |
| DirectoryListing.BlockCanGoUnsaid | packages/native-file-tools/src/directory-listing.ts:548-568 | that corner is reached by every directory with one full child under a cap that just admits its name |
| DirectoryListing.TreeContinues | packages/native-file-tools/src/directory-listing.ts:417-446 | a tree's first page stands for the first entries of the level and continues after them |
| DirectoryListing.TreeThenPages | packages/native-file-tools/src/directory-listing.ts:548-600 | a tree's first page and the flat pages after it list each entry once, in order |
| EditDistance.DistanceBounds | packages/native-file-tools/src/read-suggestions.ts:139-176 | the distance lies between the difference and the maximum of the lengths |
| EditDistance.DistanceIsSymmetric | packages/native-file-tools/src/read-suggestions.ts:139-176 | the distance is symmetric |
| EditDistance.ZeroDistance | packages/native-file-tools/src/read-suggestions.ts:139-176 | zero exactly for equal texts |
| EditDistance.CellStep | packages/native-file-tools/src/read-suggestions.ts:157-171 | the table's formula, with its bound before the first row and column, is the recurrence |
| EditScripts.DistanceIsReached | packages/native-file-tools/src/read-suggestions.ts:139-176 | that many insertions, deletions, substitutions and exchanges of neighbours turn one text into the other |
| EditMetric.OneEditCosts | packages/native-file-tools/src/read-suggestions.ts:139-176 | one edit changes the distance from any text by at most one |
| EditMetric.DistanceIsLeast | packages/native-file-tools/src/read-suggestions.ts:139-176 | the distance is the least number of insertions, deletions, substitutions and exchanges of neighbours that turn one text into the other |
| EditMetric.Triangle | packages/native-file-tools/src/read-suggestions.ts:139-176 | the way over a third text is never shorter |
| ReadSuggestions.Table.Store | packages/native-file-tools/src/read-suggestions.ts:142-152 | a flat 16-bit store changes its own cell and no other |
| ReadSuggestions.NothingWraps | packages/native-file-tools/src/read-suggestions.ts:140-176 | every stored cell is the recurrence's value while the texts together stay below a cell's range |
| ReadSuggestions.DamerauLevenshtein | packages/native-file-tools/src/read-suggestions.ts:140-176 | the result is the wrapped recurrence's last cell, and the distance while the texts together stay below a cell's range |
| ReadSuggestions.BudgetKeepsNamesShort | packages/native-file-tools/src/read-suggestions.ts:130-137 | the prefilter and the budget keep both names within 8000 characters together |
| ReadSuggestions.ScoreInRange | packages/native-file-tools/src/read-suggestions.ts:115-128 | the score lies between zero and one, is one only for equal names, and is symmetric |
| SuggestionScore.ScoreIs | packages/native-file-tools/src/read-suggestions.ts:115-137 | the score is one less the least number of single edits in parts of the longer name, and nothing for names too short or too unequal in length |
| ReadSuggestions.Similarity | packages/native-file-tools/src/read-suggestions.ts:115-128 | the score while the budget lasts; the budget pays the table's cells, and no cell wraps |

## Left out

- User interface, tests, server wiring, the git executor and the machine's file, search and MCP operations: not part of this model.
- The scanner's line classifiers (fences, HTML blocks, link definitions, titles, tab expansion) are function-valued parameters of a grammar; the theorems hold for every choice of them.
- Queue entries are named by line number instead of by reference, so aliasing of entry objects is not captured.
- MarkdownAncestors.MarkdownAncestorTracker.Accept: a chain is the headings that cover a line; the table header rows of a chain, a unit's own lines and the Markdown window collectors are not modelled, breadth over the same scanner and budget.
- Abort controllers, promises and notification handlers of a stream: their effects are the history of calls and deliveries.
- An operation's answer and the end of its stream are one step, as nothing but other promise callbacks can run between them.
- The daemon's runs take a refusal to be written when a frame is not; when it is, and what happens otherwise, is Wire.WriteEnds.
- The multiplexer's model sends the refusal at the stream cap whatever its size; the source writes it like any frame, and what then becomes of one that does not fit is Wire.CapRefusal.
- The text of JSON is a pair of functions with three laws over values: parsing undoes writing, no raw newline is written, and the wrapper of a safe integer adds at most 512 bytes. The grammar of JSON itself is not modelled.
- The byte decoder is a parameter with laws, which UTF-8 meets; how Node.js's decoder buffers bytes is not modelled.
- The drain of the last output is one event; a stream it gives up on is a parameter of Capture.CloseTimedOut.
- Sanitize.SanitizeCaptured: around a gap nothing is promised about output that would have followed the tail, which the source does not trim either.
- DirectoryPage.BoundFlatResult: takes the rule that neutralizes reserved delimiters as the identity when it measures a listing.
- Watcher.TakeKeeps: models the race on values, event by event; timers, listeners and the order of callbacks within one event are not captured.
- The multi-range walk over a stream with its rollback, outlines and media reads: they would repeat the single-range results over more state.
- Splitting `path:selector`, the `raw:` and `outline:` prefixes, and path resolution on the host.
- Paging.PagesHoldTheSource: takes the delimiter rule as the identity, because its exactness compares widths of different pages; SourceLines.PageFits holds for every rule that adding lines does not shorten.
- Directory reading, sorting by locale and link resolution; entries arrive with their kind and link target, the roots of a tree as formatted lines.
- The ranking of suggestions around the score, and Unicode normalization of names.
