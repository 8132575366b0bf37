/** What is kept of a command's output while it runs, and the result made of that. */
module Capture {
  import opened Text
  import opened OutputBound
  import opened ProtectedValues
  import opened Redaction
  import opened Sanitize
  import opened Decoding

  /** More output does not move the cut of a capture that is already full. */
  lemma CutStays(whole: Text, more: Text, capture: StreamBound, n: nat)
    requires IsCut(whole, capture, n) && !Joins(whole, more)
    requires n < |whole| || Measure(whole, capture.kind) >= capture.limit
    ensures IsCut(whole + more, capture, n)
  {
    hide Measure;
    var all := whole + more;
    assert Boundary(whole, |whole|) && whole[..|whole|] == whole && all[..|whole|] == whole && all[|whole|..] == more;
    assert all[..n] == whole[..n];
    assert Boundary(all, n) by { SameBoundary(whole, more, n); }
    forall j | n < j <= |all| && Boundary(all, j) ensures Measure(all[..j], capture.kind) > capture.limit {
      if j <= |whole| {
        assert all[..j] == whole[..j];
        SameBoundary(whole, more, j);
      } else {
        MeasureGrows(all, capture.kind, |whole|, j);
      }
    }
  }

  lemma SameBoundary(whole: Text, more: Text, i: nat)
    requires i <= |whole| && !Joins(whole, more)
    ensures Boundary(whole + more, i) <==> Boundary(whole, i)
  {
  }

  /** The cut of what follows an exact prefix, under what the prefix leaves of the limit. */
  lemma CutOfRest(whole: Text, more: Text, capture: StreamBound, used: nat, cut: nat)
    requires !Joins(whole, more) && used == Measure(whole, capture.kind) <= capture.limit
    requires IsCut(more, StreamBound(capture.kind, capture.limit - used), cut)
    ensures IsCut(whole + more, capture, |whole| + cut)
  {
    hide Measure;
    var all, at := whole + more, |whole| + cut;
    assert Boundary(all, |whole|) && all[..|whole|] == whole && all[|whole|..] == more;
    assert all[|whole|..at] == more[..cut];
    MeasureGrows(all, capture.kind, |whole|, at);
    assert Boundary(all, at) by { LaterBoundary(whole, more, cut); }
    forall j | at < j <= |all| && Boundary(all, j) ensures Measure(all[..j], capture.kind) > capture.limit {
      MeasureGrows(all, capture.kind, |whole|, j);
      assert all[|whole|..j] == more[..j - |whole|];
      LaterBoundary(whole, more, j - |whole|);
    }
  }

  lemma LaterBoundary(whole: Text, more: Text, i: nat)
    requires i <= |more| && !Joins(whole, more)
    ensures Boundary(whole + more, |whole| + i) <==> Boundary(more, i)
  {
    if 0 < i < |more| {
      assert (whole + more)[|whole| + i - 1] == more[i - 1] && (whole + more)[|whole| + i] == more[i];
    }
  }

  /** Some member measures just this. */
  ghost predicate Reached(members: seq<Text>, kind: Kind, size: int) {
    exists k :: 0 <= k < |members| && Measure(members[k], kind) == size
  }

  /** A limit with room for any one member past the bound, and no more. */
  method WithLookahead(bound: StreamBound, members: seq<Text>) returns (capture: StreamBound)
    ensures capture.kind == bound.kind && bound.limit <= capture.limit
    ensures forall k :: 0 <= k < |members| ==> bound.limit + Measure(members[k], bound.kind) <= capture.limit
    ensures capture.limit == bound.limit || Reached(members, bound.kind, capture.limit - bound.limit)
  {
    hide Measure;
    var longest := 0;
    for k := 0 to |members|
      invariant longest >= 0 && forall j :: 0 <= j < k ==> Measure(members[j], bound.kind) <= longest
      invariant longest == 0 || Reached(members, bound.kind, longest)
    {
      var n := Measure(members[k], bound.kind);
      if n > longest { longest := n; }
    }
    capture := StreamBound(bound.kind, bound.limit + longest);
  }

  /** What a capture is, of everything the decoder produced: the longest prefix within the limit. */
  ghost predicate Captures(text: Text, used: nat, lost: bool, whole: Text, capture: StreamBound) {
    && |text| <= |whole| && text == whole[..|text|] && IsCut(whole, capture, |text|)
    && (!lost ==> text == whole && used == Measure(whole, capture.kind) <= capture.limit)
    && (lost ==> used == capture.limit && (|text| < |whole| || Measure(whole, capture.kind) >= capture.limit))
  }

  /** Adds a chunk's text, as far as it fits; nothing fits any more once something did not. */
  method AppendCapture(current: Text, used: nat, chunk: Text, capture: StreamBound)
    returns (text: Text, used': nat, overflow: bool)
    requires used <= capture.limit
    requires used == Measure(current, capture.kind) && !Joins(current, chunk)
    ensures Captures(text, used', overflow, current + chunk, capture)
    ensures overflow <==> |text| < |current + chunk|
  {
    var size := Measure(chunk, capture.kind);
    BytesJoin(current, chunk);
    var all := current + chunk;
    assert all[..|all|] == all && Boundary(all, |all|);
    if used + size <= capture.limit {
      return all, used + size, false;
    }
    var cut := CutLength(chunk, StreamBound(capture.kind, capture.limit - used));
    CutOfRest(current, chunk, capture, used, cut);
    assert chunk[..|chunk|] == chunk;
    assert all[..|current| + cut] == current + chunk[..cut];
    return current + chunk[..cut], capture.limit, true;
  }

  /** A full capture stays full. */
  lemma StillFull(whole: Text, more: Text, capture: StreamBound, n: nat)
    requires IsCut(whole, capture, n) && !Joins(whole, more)
    requires n < |whole| || Measure(whole, capture.kind) >= capture.limit
    ensures n < |whole + more| || Measure(whole + more, capture.kind) >= capture.limit
  {
    BytesJoin(whole, more);
  }

  class CapturedStream {
    const capture: StreamBound
    const decoder: Decoder
    var text: Text
    var used: nat
    var lost: bool
    /** The bytes the decoder was given: a full capture gives it no more. */
    var fed: seq<Byte>
    /** The bytes the command wrote. */
    ghost var written: seq<Byte>

    /** What was written, as text; without the bytes of a character that never became complete. */
    ghost function Whole(): Text
      reads this
    {
      decoder.text(written)
    }

    ghost predicate Valid()
      reads this
    {
      && Lawful(decoder) && Captures(text, used, lost, Whole(), capture)
      && fed <= written && (!lost ==> fed == written)
    }

    constructor (capture: StreamBound, decoder: Decoder)
      requires Lawful(decoder)
      ensures Valid() && text == [] && !lost && written == []
      ensures this.capture == capture && this.decoder == decoder
    {
      this.capture, this.decoder := capture, decoder;
      text, used, lost, fed, written := [], 0, false, [], [];
    }

    /** A chunk arrives: output is lost exactly once the capture was full or what was written no longer fits. */
    method OnStreamData(chunk: seq<Byte>)
      requires Valid()
      modifies this
      ensures Valid() && written == old(written) + chunk
      ensures lost <==> old(lost) || old(used) >= capture.limit || Measure(Whole(), capture.kind) > capture.limit
    {
      hide Measure, IsCut, Lawful;
      AddedFollows(decoder, written, chunk);
      ghost var whole, more := Whole(), AddedText(decoder, written, chunk);
      written := written + chunk;
      if used >= capture.limit {
        CutStays(whole, more, capture, |text|);
        StillFull(whole, more, capture, |text|);
        lost := true;
        return;
      }
      var added := decoder.text(fed + chunk)[|decoder.text(fed)|..];
      fed := fed + chunk;
      text, used, lost := AppendCapture(text, used, added, capture);
      WholeFits(whole + more, capture, |text|);
    }

    /** Bytes that never became a character are lost. */
    method DiscardIncomplete()
      requires Valid()
      modifies this`lost
      ensures lost <==> old(lost) || decoder.held(written) > 0
    {
      if decoder.held(fed) > 0 { lost := true; }
    }
  }

  // Whole streams.

  /**
   However the output is chunked, the capture is the longest prefix of its text, in whole code points, within
   the limit.
   */
  method CaptureAll(chunks: seq<seq<Byte>>, capture: StreamBound, decoder: Decoder) returns (stream: CapturedStream)
    requires Lawful(decoder)
    ensures fresh(stream) && stream.Valid() && stream.capture == capture && stream.decoder == decoder
    ensures stream.written == Concat(chunks)
    ensures var whole := decoder.text(Concat(chunks));
            && IsCut(whole, capture, |stream.text|) && stream.text == whole[..|stream.text|]
            && (Measure(whole, capture.kind) > capture.limit ==> stream.lost)
            && (stream.lost ==> Measure(whole, capture.kind) >= capture.limit)
  {
    hide Lawful, Measure;
    stream := new CapturedStream(capture, decoder);
    var k := 0;
    while k < |chunks|
      invariant k <= |chunks| && fresh(stream) && stream.Valid() && stream.capture == capture
        && stream.decoder == decoder
      invariant stream.written == Concat(chunks[..k])
    {
      assert chunks[..k + 1][..k] == chunks[..k];
      stream.OnStreamData(chunks[k]);
      k := k + 1;
    }
    assert chunks[..k] == chunks;
    WholeFits(stream.Whole(), capture, |stream.text|);
  }

  // The result.

  /** The output shows the redaction of the first `cut` characters of whatever the stream was, or would have been. */
  ghost predicate Shows(text: Text, whole: Text, members: seq<Text>, endedByLlame: bool, cut: nat) {
    && cut <= |whole| && text == Redacted(whole, members, 0, cut)
    && (endedByLlame ==> forall rest :: text == Redacted(whole + rest, members, 0, cut))
  }

  lemma ShownOfWhole(text: Text, value: Text, whole: Text, members: seq<Text>, ended: bool, lost: bool, drop: nat,
      cut: nat)
    requires |value| <= |whole| && value == whole[..|value|] && (!lost ==> value == whole)
    requires HidesAll(text, value, members, ended || lost, Prefix(drop, cut))
    ensures Shows(text, whole, members, ended, cut)
  {
    hide Redacted;
    if ended || lost {
      var dropped := whole[|value|..];
      assert value + dropped == whole;
      forall rest ensures text == Redacted(whole + rest, members, 0, cut) {
        assert value + (dropped + rest) == whole + rest;
      }
    }
  }

  lemma CutWithin(value: Text, bound: StreamBound, members: seq<Text>, ended: bool, drop: nat, cut: nat)
    requires KeepsMost(value, bound, members, ended, Prefix(drop, cut))
    ensures cut <= |value| && (cut == |value| ==> Measure(value, bound.kind) <= bound.limit)
  {
    assert cut == |value| ==> value[..|value| - drop][..cut] == value;
  }

  /**
   One stream of a result: what of it is shown, within the bound, and truncated exactly when output was
   lost, trimmed or cut.
   */
  method CloseStream(stream: CapturedStream, bound: StreamBound, members: seq<Text>, endedByLlame: bool)
    returns (text: Text, truncated: bool, ghost drop: nat, ghost cut: nat)
    requires |stream.text| <= |stream.Whole()| && stream.text == stream.Whole()[..|stream.text|]
    requires !stream.lost ==> stream.text == stream.Whole() && stream.used == Measure(stream.Whole(), bound.kind)
    ensures Shows(text, stream.Whole(), members, endedByLlame, cut)
    ensures KeepsMost(stream.text, bound, members, endedByLlame || stream.lost, Prefix(drop, cut))
    ensures Measure(text, bound.kind) <= bound.limit
    ensures truncated <==> stream.lost || cut < |stream.Whole()|
  {
    hide Shows, HidesAll, KeepsMost, Measure;
    var value, ended := stream.text, endedByLlame || stream.lost;
    var cutTruncated;
    ghost var range;
    text, cutTruncated, range := SanitizeCaptured(value, bound, members, Some(StreamCapture(ended, None)));
    drop, cut := range.drop, range.cut;
    ShownOfWhole(text, value, stream.Whole(), members, endedByLlame, stream.lost, drop, cut);
    CutWithin(value, bound, members, ended, drop, cut);
    truncated := stream.lost || stream.used > bound.limit || cutTruncated;
  }

  /** All that was written is in the result: its text, redacted, and no byte that made none. */
  ghost predicate AllShown(text: Text, decoder: Decoder, written: seq<Byte>, members: seq<Text>) {
    var whole := decoder.text(written);
    text == Redacted(whole, members, 0, |whole|) && Decided(decoder, written)
  }

  /** As much of a captured text is shown as its bound, and the trim of one that llame ended, admit. */
  ghost predicate ShowsMost(text: Text, bound: StreamBound, members: seq<Text>, ended: bool, cut: nat) {
    exists drop: nat :: KeepsMost(text, bound, members, ended, Prefix(drop, cut))
  }

  lemma ShownOfFit(text: Text, stream: CapturedStream, bound: StreamBound, members: seq<Text>, drop: nat, cut: nat)
    requires stream.Valid()
    requires Shows(text, stream.Whole(), members, false, cut)
    requires KeepsMost(stream.text, bound, members, stream.lost, Prefix(drop, cut))
    ensures cut <= |stream.Whole()|
    ensures !stream.lost ==> (cut == |stream.Whole()| <==> Measure(stream.Whole(), bound.kind) <= bound.limit)
    ensures cut == |stream.Whole()| ==>
      (AllShown(text, stream.decoder, stream.written, members) <==> stream.decoder.held(stream.written) == 0)
  {
    hide Redacted, Measure;
    if !stream.lost {
      assert stream.text[..|stream.text|] == stream.text;
      WholeFits(stream.Whole(), bound, cut);
    }
  }

  /**
   A command that closed by itself. Truncated means that some of the text is missing; that it is not
   means everything was shown exactly when neither decoder holds bytes, for nobody asks them.
   */
  method CloseExited(out: CapturedStream, err: CapturedStream, bound: StreamBound, members: seq<Text>)
    returns (stdout: Text, stderr: Text, truncated: bool, ghost outCut: nat, ghost errCut: nat)
    requires out.Valid() && err.Valid() && out.capture.kind == err.capture.kind == bound.kind
    ensures Shows(stdout, out.Whole(), members, false, outCut) && Shows(stderr, err.Whole(), members, false, errCut)
    ensures ShowsMost(out.text, bound, members, out.lost, outCut)
      && ShowsMost(err.text, bound, members, err.lost, errCut)
    ensures Measure(stdout, bound.kind) <= bound.limit && Measure(stderr, bound.kind) <= bound.limit
    ensures truncated <==> out.lost || outCut < |out.Whole()| || err.lost || errCut < |err.Whole()|
    ensures truncated <==> || out.lost || Measure(out.Whole(), bound.kind) > bound.limit
                           || err.lost || Measure(err.Whole(), bound.kind) > bound.limit
    ensures !truncated ==>
      (AllShown(stdout, out.decoder, out.written, members) && AllShown(stderr, err.decoder, err.written, members)
       <==> out.decoder.held(out.written) == 0 && err.decoder.held(err.written) == 0)
  {
    hide Shows, Redacted, KeepsMost, Measure, Lawful, IsCut, AllShown;
    var outTruncated, errTruncated;
    ghost var outDrop, errDrop;
    stdout, outTruncated, outDrop, outCut := CloseStream(out, bound, members, false);
    stderr, errTruncated, errDrop, errCut := CloseStream(err, bound, members, false);
    ShownOfFit(stdout, out, bound, members, outDrop, outCut);
    ShownOfFit(stderr, err, bound, members, errDrop, errCut);
    truncated := outTruncated || errTruncated;
  }

  /** Output that fits and ends inside a character: the result says that nothing is missing. */
  method HeldBytesGoUnreported(written: seq<Byte>, decoder: Decoder, bound: StreamBound, members: seq<Text>)
    returns (stdout: Text, truncated: bool)
    requires Lawful(decoder) && decoder.held(written) > 0
    requires 0 < bound.limit && Measure(decoder.text(written), bound.kind) <= bound.limit
    ensures !truncated && !AllShown(stdout, decoder, written, members)
  {
    hide Shows, Redacted, Measure, Lawful, AllShown, IsCut;
    var out := new CapturedStream(bound, decoder);
    var err := new CapturedStream(bound, decoder);
    assert Measure(decoder.text([]), bound.kind) == 0 by { Empty(decoder, bound.kind); }
    out.OnStreamData(written);
    assert out.written == written;
    var stderr;
    ghost var outCut, errCut;
    stdout, stderr, truncated, outCut, errCut := CloseExited(out, err, bound, members);
    assert !AllShown(stdout, decoder, written, members) by { NotDecided(stdout, decoder, written, members); }
  }

  lemma Empty(decoder: Decoder, kind: Kind)
    requires Lawful(decoder)
    ensures Measure(decoder.text([]), kind) == 0
  {
  }

  lemma NotDecided(text: Text, decoder: Decoder, written: seq<Byte>, members: seq<Text>)
    requires Lawful(decoder) && decoder.held(written) > 0
    ensures !AllShown(text, decoder, written, members)
  {
  }

  /** Such output: a letter, and the first byte of a character that takes three. */
  lemma HalfCharacter()
    ensures var bytes := [0x61, 0xE2];
            && Lawful(Utf8()) && Utf8().held(bytes) == 1 && Utf8().text(bytes) == [0x61]
            && Measure(Utf8().text(bytes), Bytes) == 1
  {
    Utf8IsLawful();
    var bytes: seq<Byte> := [0x61, 0xE2];
    assert bytes[1..] == [0xE2];
    var text: Text := [0x61];
    assert text[1..] == [];
  }

  /**
   A command stopped at its deadline: what its decoders hold is lost, so is what a stream still open would
   have brought, and the next output could have been anything.
   */
  method CloseTimedOut(out: CapturedStream, outOpen: bool, err: CapturedStream, errOpen: bool, bound: StreamBound,
      members: seq<Text>)
    returns (stdout: Text, stderr: Text, truncated: bool, ghost outCut: nat, ghost errCut: nat)
    requires out != err && out.Valid() && err.Valid() && out.capture.kind == err.capture.kind == bound.kind
    modifies out`lost, err`lost
    ensures Shows(stdout, out.Whole(), members, true, outCut) && Shows(stderr, err.Whole(), members, true, errCut)
    ensures ShowsMost(out.text, bound, members, true, outCut) && ShowsMost(err.text, bound, members, true, errCut)
    ensures Measure(stdout, bound.kind) <= bound.limit && Measure(stderr, bound.kind) <= bound.limit
    ensures truncated <==>
      || old(out.lost) || outOpen || out.decoder.held(out.written) > 0 || outCut < |out.Whole()|
      || old(err.lost) || errOpen || err.decoder.held(err.written) > 0 || errCut < |err.Whole()|
    ensures !truncated ==>
      AllShown(stdout, out.decoder, out.written, members) && AllShown(stderr, err.decoder, err.written, members)
  {
    hide Redacted, KeepsMost, Measure, IsCut;
    out.DiscardIncomplete();
    err.DiscardIncomplete();
    if outOpen { out.lost := true; }
    if errOpen { err.lost := true; }
    var outTruncated, errTruncated;
    ghost var drop;
    stdout, outTruncated, drop, outCut := CloseStream(out, bound, members, true);
    stderr, errTruncated, drop, errCut := CloseStream(err, bound, members, true);
    truncated := outTruncated || errTruncated;
  }

  // The lookahead.

  /** A capture under the lookahead holds a protected value whole when it starts within the bound. */
  lemma StartsWithinBound(whole: Text, bound: StreamBound, capture: StreamBound, cut: nat, n: nat, member: Text, p: nat)
    requires capture.kind == bound.kind && bound.limit + Measure(member, bound.kind) <= capture.limit
    requires IsCut(whole, bound, cut) && IsCut(whole, capture, n)
    requires Occurs(whole, member, p) && p <= cut && Boundary(whole, p + |member|)
    ensures p + |member| <= n
  {
    hide Measure;
    var end := p + |member|;
    assert whole[..end] == whole[..p] + member;
    MeasureAdds(whole[..p], member, bound.kind);
    assert whole[..cut][..p] == whole[..p];
    PrefixMeasures(whole[..cut], p, bound.kind);
  }

  lemma MeasureAdds(a: Text, b: Text, kind: Kind)
    ensures Measure(a + b, kind) <= Measure(a, kind) + Measure(b, kind)
  {
    BytesJoin(a, b);
  }

  lemma PrefixMeasures(t: Text, p: nat, kind: Kind)
    requires p <= |t|
    ensures Measure(t[..p], kind) <= Measure(t, kind)
  {
    assert t == t[..p] + t[p..];
    BytesJoin(t[..p], t[p..]);
    if Joins(t[..p], t[p..]) {
      SegmentBytes(t[p..]);
    }
  }
}
