/**
 Measuring and cutting a stream's text. A bound counts code units, or bytes of UTF-8 (section 3 of
 RFC 3629); a cut never separates the two halves of a surrogate pair.
 */
module OutputBound {
  import opened Text

  datatype Kind = CodeUnits | Bytes

  datatype StreamBound = StreamBound(kind: Kind, limit: nat)

  predicate High(c: CodeUnit) { 0xD800 <= c <= 0xDBFF }

  predicate Low(c: CodeUnit) { 0xDC00 <= c <= 0xDFFF }

  /** A code unit that stands alone; a lone surrogate is encoded as the three-byte replacement character. */
  function UnitWidth(c: CodeUnit): (w: nat)
    ensures 1 <= w <= 3
  {
    if c <= 0x7F then 1 else if c <= 0x7FF then 2 else 3
  }

  /** `a` and `b` meet inside a surrogate pair. */
  predicate Joins(a: Text, b: Text) {
    a != [] && b != [] && High(a[|a| - 1]) && Low(b[0])
  }

  /** The UTF-8 length: a surrogate pair takes four bytes, two fewer than its halves alone. */
  function ByteLength(t: Text): (n: nat)
    ensures n >= |t|
  {
    if t == [] then 0
    else if Joins(t[..1], t[1..]) then 4 + ByteLength(t[2..])
    else UnitWidth(t[0]) + ByteLength(t[1..])
  }

  function Measure(t: Text, kind: Kind): (n: nat)
    ensures n >= |t|
  {
    if kind == Bytes then ByteLength(t) else |t|
  }

  /** Cutting at `i` leaves both parts whole. */
  predicate Boundary(t: Text, i: nat)
    requires i <= |t|
  {
    !Joins(t[..i], t[i..])
  }

  /** `i` is the longest prefix, in whole code points, that measures at most the limit. */
  ghost predicate IsCut(t: Text, bound: StreamBound, i: nat) {
    && i <= |t| && Boundary(t, i) && Measure(t[..i], bound.kind) <= bound.limit
    && (forall j :: i < j <= |t| && Boundary(t, j) ==> Measure(t[..j], bound.kind) > bound.limit)
  }

  /** A pair's halves measure two bytes more apart than together. */
  lemma {:induction false} BytesJoin(a: Text, b: Text)
    ensures ByteLength(a + b) == ByteLength(a) + ByteLength(b) - if Joins(a, b) then 2 else 0
    decreases |a|
  {
    if a == [] {
      assert a + b == b;
    } else if |a| == 1 {
      OneBefore(a, b);
    } else {
      assert (a + b)[..1] == a[..1] && (a + b)[1..] == a[1..] + b && (a + b)[2..] == a[2..] + b;
      assert (a[1..] + b)[0] == a[1..][0];
      if Joins(a[..1], a[1..]) {
        BytesJoin(a[2..], b);
        assert |a| == 2 ==> !Joins(a, b);
      } else {
        BytesJoin(a[1..], b);
      }
    }
  }

  lemma OneBefore(a: Text, b: Text)
    requires |a| == 1
    ensures ByteLength(a + b) == ByteLength(a) + ByteLength(b) - if Joins(a, b) then 2 else 0
  {
    assert (a + b)[..1] == a && (a + b)[1..] == b;
    if Joins(a, b) {
      assert (a + b)[2..] == b[1..];
      assert !Joins(b[..1], b[1..]);
    }
  }

  /** Longer whole prefixes measure more. */
  lemma MeasureGrows(t: Text, kind: Kind, i: nat, j: nat)
    requires i <= j <= |t| && Boundary(t, i)
    ensures Measure(t[..j], kind) == Measure(t[..i], kind) + Measure(t[i..j], kind)
    ensures Measure(t[..j], kind) >= Measure(t[..i], kind) + j - i
  {
    assert t[..j] == t[..i] + t[i..j];
    assert !Joins(t[..i], t[i..j]);
    BytesJoin(t[..i], t[i..j]);
  }

  lemma CutIsUnique(t: Text, bound: StreamBound, i: nat, j: nat)
    requires IsCut(t, bound, i) && IsCut(t, bound, j)
    ensures i == j
  {
  }

  lemma WholeFits(t: Text, bound: StreamBound, i: nat)
    requires IsCut(t, bound, i)
    ensures i == |t| <==> Measure(t, bound.kind) <= bound.limit
  {
    assert t[..|t|] == t && Boundary(t, |t|);
  }

  /** One code point further: its width, and the next boundary. */
  lemma NextCodePoint(t: Text, i: nat)
    requires i < |t| && Boundary(t, i)
    ensures var pair := i + 1 < |t| && High(t[i]) && Low(t[i + 1]);
            var next := if pair then i + 2 else i + 1;
            && Boundary(t, next)
            && ByteLength(t[..next]) == ByteLength(t[..i]) + (if pair then 4 else UnitWidth(t[i]))
            && (forall j :: i < j < next ==> !Boundary(t, j))
  {
    var pair := i + 1 < |t| && High(t[i]) && Low(t[i + 1]);
    var next := if pair then i + 2 else i + 1;
    MeasureGrows(t, Bytes, i, next);
    var p := t[i..next];
    if pair {
      assert p == [t[i], t[i + 1]] && p[2..] == [] && Joins(p[..1], p[1..]);
    } else {
      assert p == [t[i]] && p[1..] == [] && !Joins(p[..1], p[1..]);
      assert ByteLength(p) == UnitWidth(p[0]) + ByteLength(p[1..]);
    }
  }

  /** Walks code point by code point until the next one no longer fits. */
  method Utf8CutIndex(t: Text, limit: nat) returns (index: nat)
    ensures IsCut(t, StreamBound(Bytes, limit), index)
  {
    var bytes := 0;
    index := 0;
    while index < |t|
      invariant index <= |t| && Boundary(t, index)
      invariant bytes == ByteLength(t[..index]) && bytes <= limit
    {
      var pair := index + 1 < |t| && High(t[index]) && Low(t[index + 1]);
      NextCodePoint(t, index);
      bytes := bytes + if pair then 4 else UnitWidth(t[index]);
      if bytes > limit {
        ghost var next := index + if pair then 2 else 1;
        forall j | index < j <= |t| && Boundary(t, j) ensures ByteLength(t[..j]) > limit {
          MeasureGrows(t, Bytes, next, j);
        }
        break;
      }
      index := index + if pair then 2 else 1;
    }
  }

  /** Steps back from between the halves of a pair. */
  function CodePointSafeCutIndex(t: Text, index: nat): nat
    requires index <= |t|
  {
    if Boundary(t, index) then index else index - 1
  }

  method CutLength(t: Text, bound: StreamBound) returns (index: nat)
    ensures IsCut(t, bound, index)
  {
    if bound.kind == Bytes {
      index := Utf8CutIndex(t, bound.limit);
    } else {
      index := CodePointSafeCutIndex(t, if |t| <= bound.limit then |t| else bound.limit);
    }
  }
}
