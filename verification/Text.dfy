/** Strings as the source language sees them: sequences of UTF-16 code units. */
module Text {

  datatype Option<+T> = None | Some(value: T)

  type CodeUnit = c: int | 0 <= c < 0x1_0000
  type Text = seq<CodeUnit>

  function Min(a: nat, b: nat): nat { if a <= b then a else b }

  function Max(a: int, b: int): int { if a < b then b else a }

  const LF: CodeUnit := 0x0A
  const CR: CodeUnit := 0x0D
  const SPACE: CodeUnit := 0x20

  /** The position of the first `c` at or after `from`, or the length when there is none. */
  function IndexFrom(s: Text, c: CodeUnit, from: nat): (at: nat)
    requires from <= |s|
    ensures from <= at <= |s|
    ensures forall k :: from <= k < at ==> s[k] != c
    ensures at < |s| ==> s[at] == c
    decreases |s| - from
  {
    if from == |s| || s[from] == c then from else IndexFrom(s, c, from + 1)
  }

  /** What arrives in chunks, put together. */
  function Concat<T>(chunks: seq<seq<T>>): seq<T> {
    if chunks == [] then [] else Concat(chunks[..|chunks| - 1]) + chunks[|chunks| - 1]
  }

  /** What follows the last newline. */
  function Tail(t: Text): (tail: Text)
    ensures |tail| <= |t| && LF !in tail
  {
    if t == [] || t[|t| - 1] == LF then [] else Tail(t[..|t| - 1]) + [t[|t| - 1]]
  }

  /** The pieces between separators. */
  function Split(s: Text, separator: CodeUnit): (pieces: seq<Text>)
    ensures pieces != []
  {
    if s == [] then [[]]
    else
      var rest := Split(s[1..], separator);
      if s[0] == separator then [[]] + rest else [[s[0]] + rest[0]] + rest[1..]
  }

  function Join(pieces: seq<Text>, separator: CodeUnit): Text
    requires pieces != []
  {
    if |pieces| == 1 then pieces[0] else pieces[0] + [separator] + Join(pieces[1..], separator)
  }

  lemma {:induction false} SplitPiece(piece: Text, rest: Text, separator: CodeUnit)
    requires separator !in piece
    ensures Split(piece, separator) == [piece]
      && Split(piece + [separator] + rest, separator) == [piece] + Split(rest, separator)
    decreases |piece|
  {
    var s := piece + [separator] + rest;
    if piece == [] {
      assert s == [separator] + rest && s[1..] == rest;
    } else {
      assert piece[0] in piece && piece[1..] + [separator] + rest == s[1..];
      SplitPiece(piece[1..], rest, separator);
      assert [piece[0]] + piece[1..] == piece;
    }
  }

  /** Splitting undoes joining pieces without the separator. */
  lemma {:induction false} SplitJoin(pieces: seq<Text>, separator: CodeUnit)
    requires pieces != [] && forall k :: 0 <= k < |pieces| ==> separator !in pieces[k]
    ensures Split(Join(pieces, separator), separator) == pieces
    decreases |pieces|
  {
    if |pieces| == 1 {
      SplitPiece(pieces[0], [], separator);
    } else {
      SplitJoin(pieces[1..], separator);
      SplitPiece(pieces[0], Join(pieces[1..], separator), separator);
    }
  }
}
