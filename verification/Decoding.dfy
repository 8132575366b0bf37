/**
 Decoding bytes as they arrive. A decoder gives the text of what it can decide and holds the bytes of a
 character that is not complete yet; what follows never changes the text already given.
 */
module Decoding {
  import opened Text
  import opened OutputBound

  type Byte = b: int | 0 <= b < 0x100

  /** The text of the bytes given so far, and how many of the last of them are still held. */
  datatype Decoder = Decoder(text: seq<Byte> -> Text, held: seq<Byte> -> nat)

  /** What follows is decoded on its own: nothing of `bytes` is undecided. */
  ghost predicate Decided(d: Decoder, bytes: seq<Byte>) {
    forall more :: d.text(bytes + more) == d.text(bytes) + d.text(more)
  }

  ghost predicate Lawful(d: Decoder) {
    && d.text([]) == []
    && (forall bytes, more :: d.text(bytes) <= d.text(bytes + more))
    && (forall bytes :: EndsWhole(d.text(bytes)))
    && (forall bytes :: d.held(bytes) == 0 <==> Decided(d, bytes))
  }

  /** A text whose last code unit is not the first half of a surrogate pair. */
  predicate EndsWhole(t: Text) {
    t == [] || !High(t[|t| - 1])
  }

  /** What `more` adds to the text. */
  function AddedText(d: Decoder, bytes: seq<Byte>, more: seq<Byte>): Text
    requires d.text(bytes) <= d.text(bytes + more)
  {
    d.text(bytes + more)[|d.text(bytes)|..]
  }

  lemma AddedFollows(d: Decoder, bytes: seq<Byte>, more: seq<Byte>)
    requires Lawful(d)
    ensures d.text(bytes) <= d.text(bytes + more)
    ensures d.text(bytes + more) == d.text(bytes) + AddedText(d, bytes, more)
    ensures !Joins(d.text(bytes), AddedText(d, bytes, more))
  {
    assert EndsWhole(d.text(bytes));
  }

  // UTF-8 (section 3 of RFC 3629), with a replacement character for each run of bytes that starts none.

  const REPLACEMENT: CodeUnit := 0xFFFD

  /** How many bytes a character with this first byte takes; zero when none starts so. */
  function Needed(lead: Byte): (n: nat)
    ensures n <= 4
  {
    if lead < 0x80 then 1 else if lead < 0xC2 then 0 else if lead < 0xE0 then 2
    else if lead < 0xF0 then 3 else if lead < 0xF5 then 4 else 0
  }

  /** Whether `b` can be byte `k` of a character: no overlong form, no surrogate, nothing past the last one. */
  predicate Allowed(lead: Byte, k: nat, b: Byte) {
    && 0x80 <= b < 0xC0
    && (k == 1 && lead == 0xE0 ==> 0xA0 <= b) && (k == 1 && lead == 0xED ==> b < 0xA0)
    && (k == 1 && lead == 0xF0 ==> 0x90 <= b) && (k == 1 && lead == 0xF4 ==> b < 0x90)
  }

  /** How many of the bytes belong to the first character, of which `k` are known to. */
  function Fitting(bytes: seq<Byte>, k: nat): (n: nat)
    requires 1 <= k <= |bytes|
    ensures k <= n <= |bytes|
    decreases |bytes| - k
  {
    if k < Needed(bytes[0]) && k < |bytes| && Allowed(bytes[0], k, bytes[k]) then Fitting(bytes, k + 1) else k
  }

  function Scalar(bytes: seq<Byte>): nat
    requires 1 <= |bytes| <= 4
  {
    var a: int := bytes[0];
    if |bytes| == 1 then a
    else if |bytes| == 2 then Low(a % 0x20, bytes[1])
    else if |bytes| == 3 then Low(Low(a % 0x10, bytes[1]), bytes[2])
    else Low(Low(Low(a % 0x08, bytes[1]), bytes[2]), bytes[3])
  }

  /** Six more bits. */
  function Low(bits: nat, b: Byte): nat { bits * 0x40 + b % 0x40 }

  function Units(scalar: nat): (t: Text)
    ensures 1 <= |t| <= 2 && EndsWhole(t)
  {
    if 0xD800 <= scalar < 0xE000 || scalar > 0x10FFFF then [REPLACEMENT]
    else if scalar < 0x10000 then [scalar]
    else [0xD800 + (scalar - 0x10000) / 0x400, 0xDC00 + (scalar - 0x10000) % 0x400]
  }

  /** The text of the first character and how many bytes it takes; none while it is incomplete. */
  function First(bytes: seq<Byte>): (r: (Text, nat))
    requires bytes != []
    ensures r.1 <= |bytes| && EndsWhole(r.0) && (r.0 == [] <==> r.1 == 0)
  {
    var needed, n := Needed(bytes[0]), Fitting(bytes, 1);
    if n == needed then (Units(Scalar(bytes[..n])), n)
    else if n == |bytes| && n < needed then ([], 0)
    else ([REPLACEMENT], n)
  }

  function Utf8Text(bytes: seq<Byte>): Text {
    if bytes == [] || First(bytes).1 == 0 then [] else First(bytes).0 + Utf8Text(bytes[First(bytes).1..])
  }

  function Utf8Held(bytes: seq<Byte>): nat {
    if bytes == [] || First(bytes).1 == 0 then |bytes| else Utf8Held(bytes[First(bytes).1..])
  }

  function Utf8(): Decoder { Decoder(Utf8Text, Utf8Held) }

  lemma {:induction false} FittingStays(bytes: seq<Byte>, more: seq<Byte>, k: nat)
    requires 1 <= k <= |bytes|
    ensures Fitting(bytes, k) < |bytes| || Fitting(bytes, k) >= Needed(bytes[0]) ==>
      Fitting(bytes + more, k) == Fitting(bytes, k)
    ensures Fitting(bytes, k) == |bytes| ==> Fitting(bytes + more, k) == Fitting(bytes + more, |bytes|)
    decreases |bytes| - k
  {
    if k < Needed(bytes[0]) && k < |bytes| && Allowed(bytes[0], k, bytes[k]) {
      FittingStays(bytes, more, k + 1);
    }
  }

  /** A complete first character stays the first; an incomplete one is replaced when a letter follows. */
  lemma FirstStays(bytes: seq<Byte>, more: seq<Byte>)
    requires bytes != []
    ensures First(bytes).1 > 0 ==> First(bytes + more) == First(bytes)
    ensures First(bytes).1 == 0 && more != [] && more[0] < 0x80 ==> First(bytes + more) == ([REPLACEMENT], |bytes|)
  {
    hide Units, Scalar;
    FittingStays(bytes, more, 1);
    var n := Fitting(bytes, 1);
    assert (bytes + more)[..n] == bytes[..n];
  }

  /** Later bytes leave the text as it is, and follow it directly when nothing is held. */
  lemma {:induction false} Utf8Extends(bytes: seq<Byte>, more: seq<Byte>)
    ensures Utf8Text(bytes) <= Utf8Text(bytes + more)
    ensures Utf8Held(bytes) == 0 ==> Utf8Text(bytes + more) == Utf8Text(bytes) + Utf8Text(more)
    decreases |bytes|
  {
    hide First;
    if bytes == [] {
      assert bytes + more == more;
    } else if First(bytes).1 > 0 {
      var n := First(bytes).1;
      FirstStays(bytes, more);
      assert (bytes + more)[n..] == bytes[n..] + more;
      Utf8Extends(bytes[n..], more);
    }
  }

  lemma {:induction false} Utf8EndsWhole(bytes: seq<Byte>)
    ensures EndsWhole(Utf8Text(bytes))
    decreases |bytes|
  {
    hide First;
    if bytes != [] && First(bytes).1 > 0 {
      Utf8EndsWhole(bytes[First(bytes).1..]);
    }
  }

  const LETTER: seq<Byte> := [0x61]

  /** Bytes that are held turn into a replacement character when a letter follows instead of the rest. */
  lemma {:induction false} HeldIsUndecided(bytes: seq<Byte>)
    requires Utf8Held(bytes) > 0
    ensures Utf8Text(bytes + LETTER) == Utf8Text(bytes) + [REPLACEMENT] + Utf8Text(LETTER)
    decreases |bytes|
  {
    hide First;
    var n := First(bytes).1;
    FirstStays(bytes, LETTER);
    if n > 0 {
      assert (bytes + LETTER)[n..] == bytes[n..] + LETTER;
      HeldIsUndecided(bytes[n..]);
    } else {
      assert (bytes + LETTER)[|bytes|..] == LETTER;
    }
  }

  lemma HeldExactly(bytes: seq<Byte>)
    ensures Utf8Held(bytes) == 0 <==> Decided(Utf8(), bytes)
  {
    hide Utf8Text, Utf8Held;
    if Utf8Held(bytes) == 0 {
      forall more ensures Utf8Text(bytes + more) == Utf8Text(bytes) + Utf8Text(more) {
        Utf8Extends(bytes, more);
      }
    } else {
      HeldIsUndecided(bytes);
      assert Utf8Text(bytes + LETTER) != Utf8Text(bytes) + Utf8Text(LETTER);
    }
  }

  /** UTF-8 is decoded lawfully. */
  lemma Utf8IsLawful()
    ensures Lawful(Utf8())
  {
    var d := Utf8();
    assert d.text([]) == [];
    hide Utf8Text, Utf8Held;
    forall bytes, more ensures d.text(bytes) <= d.text(bytes + more) {
      Utf8Extends(bytes, more);
    }
    forall bytes ensures EndsWhole(d.text(bytes)) {
      Utf8EndsWhole(bytes);
    }
    forall bytes ensures d.held(bytes) == 0 <==> Decided(d, bytes) {
      HeldExactly(bytes);
    }
  }
}
