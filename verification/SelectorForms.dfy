/** The selectors a reader can write, by their text, and the lines each of them means. */
module SelectorForms {
  import opened Text
  import opened Decimal
  import opened Selectors
  import opened SelectorText

  predicate Number(t: Text) { t != [] && AllDigits(t) }

  /** A bound a reader may write: one-based, and a number the source language counts exactly. */
  predicate Bound(n: int) { 1 <= n <= MAX_SAFE_INTEGER }

  /** The selector is refused, or means these lines of every source. */
  ghost predicate Means(selector: Text, accepted: bool, lines: (nat, nat) -> bool) {
    var parsed := ParseSelector(selector);
    && (parsed.Some? <==> accepted)
    && (accepted ==> forall count: nat, line: nat :: DenotesAny(parsed.value, count, line) <==> lines(count, line))
  }

  lemma NoComma(t: Text)
    requires AllDigits(t)
    ensures COMMA !in t
  {
  }

  /** A selector without a comma is its one member. */
  lemma Alone(t: Text)
    requires COMMA !in t
    ensures ParseSelector(t) == if ParseMember(t) == None then None else Some([ParseMember(t).value])
  {
    hide ParseMember;
    SplitPiece(t, [], COMMA);
    var pieces := [t];
    assert pieces[1..] == [] && ParseAll([]) == Some([]);
    if ParseMember(t).Some? {
      assert [ParseMember(t).value] + [] == [ParseMember(t).value];
    }
  }

  lemma OneMeans(selector: Text, member: Member, lines: (nat, nat) -> bool)
    requires COMMA !in selector && ParseMember(selector) == Checked(member)
    requires Valid(member) ==> forall count: nat, line: nat :: Denotes(member, count, line) <==> lines(count, line)
    ensures Means(selector, Valid(member), lines)
  {
    hide ParseMember, ParseSelector;
    Alone(selector);
    if Valid(member) {
      forall count: nat, line: nat ensures DenotesAny([member], count, line) <==> lines(count, line) {
        assert DenotesAny([member], count, line) <==> Denotes([member][0], count, line);
      }
    }
  }

  lemma RunOf(a: Text, rest: Text)
    requires AllDigits(a) && (rest == [] || !IsDigit(rest[0]))
    ensures DigitRun(a + rest) == |a|
  {
    var t := a + rest;
    assert forall k :: 0 <= k < |a| ==> t[k] == a[k];
    RunIs(t, |a|);
  }

  /** `N` is that line. */
  lemma LineReads(a: Text)
    requires Number(a)
    ensures Means(a, Bound(Value(a)), (count, line) => line + 1 == Value(a))
  {
    RunOf(a, []);
    assert a + [] == a && a[..|a|] == a;
    NoComma(a);
    OneMeans(a, One(Value(a)), (count, line) => line + 1 == Value(a));
  }

  /** `N-M` is the lines from the one to the other, which must be in order. */
  lemma SpanReads(a: Text, b: Text)
    requires Number(a) && Number(b)
    ensures Means(a + [DASH] + b, Bound(Value(a)) && Bound(Value(b)) && Value(a) <= Value(b),
                  (count, line) => Value(a) <= line + 1 <= Value(b))
  {
    assert a + [DASH] + b == a + ([DASH] + b);
    RunOf(a, [DASH] + b);
    SelectorText.SpanReads(a, b);
    NoComma(a);
    NoComma(b);
    OneMeans(a + [DASH] + b, Span(Value(a), Value(b)), (count, line) => Value(a) <= line + 1 <= Value(b));
  }

  /** `N+K` is K lines, the first of which is N. */
  lemma CountReads(a: Text, b: Text)
    requires Number(a) && Number(b)
    ensures Means(a + [PLUS] + b, Bound(Value(a)) && Bound(Value(b)) && Bound(Value(a) + Value(b) - 1),
                  (count, line) => Value(a) <= line + 1 < Value(a) + Value(b))
  {
    var s := a + [PLUS] + b;
    assert s == a + ([PLUS] + b);
    RunOf(a, [PLUS] + b);
    assert s[|a|] == PLUS && s[..|a|] == a && s[|a| + 1..] == b;
    NoComma(a);
    NoComma(b);
    OneMeans(s, Count(Value(a), Value(b)), (count, line) => Value(a) <= line + 1 < Value(a) + Value(b));
  }

  /** `N-` is every line of the source from N on. */
  lemma ThroughReads(a: Text)
    requires Number(a)
    ensures Means(a + [DASH], Bound(Value(a)), (count, line) => Value(a) <= line + 1 && line < count)
  {
    var s := a + [DASH];
    RunOf(a, [DASH]);
    assert s[|a|] == DASH && s[..|a|] == a && s[|a| + 1..] == [];
    NoComma(a);
    OneMeans(s, Through(Value(a)), (count, line) => Value(a) <= line + 1 && line < count);
  }

  /** `-K` is the last K lines of the source, or all of them. */
  lemma FinalReads(b: Text)
    requires Number(b)
    ensures Means([DASH] + b, Bound(Value(b)), (count, line) => count <= line + Value(b) && line < count)
  {
    var s := [DASH] + b;
    RunOf([], s);
    assert [] + s == s && s[0] == DASH && s[1..] == b;
    NoComma(b);
    OneMeans(s, Final(Value(b)), (count, line) => count <= line + Value(b) && line < count);
  }

  /** A text of one of the five forms. */
  ghost predicate IsForm(t: Text) {
    || Number(t)
    || (|t| > 1 && t[0] == DASH && AllDigits(t[1..]))
    || (exists k :: 0 < k < |t| && AllDigits(t[..k]) && t[k] == DASH && AllDigits(t[k + 1..]))
    || (exists k :: 0 < k < |t| && AllDigits(t[..k]) && t[k] == PLUS && Number(t[k + 1..]))
  }

  /** Any other text is refused. */
  lemma OthersAreRefused(t: Text)
    requires COMMA !in t && !IsForm(t)
    ensures ParseSelector(t) == None
  {
    Alone(t);
    var d := DigitRun(t);
    assert t[..d] == t ==> AllDigits(t);
    if d == 0 && |t| > 0 {
      assert t[0 + 1..] == t[1..];
    }
  }

  /** A list of members separated by commas: read exactly when each of at most 64 is, and then their union. */
  lemma ListReads(pieces: seq<Text>)
    requires pieces != [] && forall k :: 0 <= k < |pieces| ==> COMMA !in pieces[k]
    ensures var parsed := ParseSelector(Join(pieces, COMMA));
            && (parsed.Some? <==>
              |pieces| <= MAX_SELECTOR_RANGES && forall k :: 0 <= k < |pieces| ==> ParseSelector(pieces[k]).Some?)
            && (parsed.Some? ==> forall count: nat, line: nat ::
                  DenotesAny(parsed.value, count, line) <==>
                    exists k :: 0 <= k < |pieces| && DenotesAny(ParseSelector(pieces[k]).value, count, line))
  {
    hide ParseMember, ParseSelector;
    SplitJoin(pieces, COMMA);
    assert ParseSelector(Join(pieces, COMMA)) == if |pieces| > MAX_SELECTOR_RANGES then None else ParseAll(pieces) by {
      WholeIsAll(Join(pieces, COMMA));
    }
    forall k | 0 <= k < |pieces|
      ensures ParseSelector(pieces[k]) == if ParseMember(pieces[k]) == None then None
        else Some([ParseMember(pieces[k]).value])
    {
      Alone(pieces[k]);
    }
    AllReads(pieces);
    if ParseAll(pieces).Some? {
      forall count: nat, line: nat
        ensures DenotesAny(ParseAll(pieces).value, count, line) <==>
                  exists k :: 0 <= k < |pieces| && DenotesAny(ParseSelector(pieces[k]).value, count, line)
      {
        UnionReads(pieces, ParseAll(pieces).value, count, line);
      }
    }
  }

  lemma WholeIsAll(s: Text)
    ensures ParseSelector(s) == if |Split(s, COMMA)| > MAX_SELECTOR_RANGES then None else ParseAll(Split(s, COMMA))
  {
  }

  lemma {:induction false} AllReads(pieces: seq<Text>)
    ensures ParseAll(pieces).Some? <==> forall k :: 0 <= k < |pieces| ==> ParseMember(pieces[k]).Some?
    ensures ParseAll(pieces).Some? ==>
              |ParseAll(pieces).value| == |pieces| && forall k :: 0 <= k < |pieces| ==>
                ParseMember(pieces[k]) == Some(ParseAll(pieces).value[k])
    decreases |pieces|
  {
    hide ParseMember;
    if pieces != [] {
      AllReads(pieces[1..]);
      if ParseAll(pieces[1..]) == None {
        var k :| 0 <= k < |pieces| - 1 && ParseMember(pieces[1..][k]) == None;
        assert ParseMember(pieces[k + 1]) == None;
      }
    }
  }

  lemma UnionReads(pieces: seq<Text>, members: seq<Member>, count: nat, line: nat)
    requires |members| == |pieces|
    requires forall k :: 0 <= k < |pieces| ==> ParseSelector(pieces[k]) == Some([members[k]])
    ensures DenotesAny(members, count, line) <==>
              exists k :: 0 <= k < |pieces| && DenotesAny(ParseSelector(pieces[k]).value, count, line)
  {
    hide ParseSelector;
    forall k | 0 <= k < |pieces| ensures DenotesAny(ParseSelector(pieces[k]).value, count, line) <==>
      Denotes(members[k], count, line) {
      assert DenotesAny([members[k]], count, line) <==> Denotes([members[k]][0], count, line);
    }
  }

  /** Numbers are decimal: each digit counts ten times the one after it. */
  lemma {:induction false} ValueIsDecimal(s: Text, t: Text)
    requires AllDigits(s) && AllDigits(t)
    ensures Value(s + t) == Value(s) * PowerOfTen(|t|) + Value(t)
    decreases |t|
  {
    if t == [] {
      assert s + t == s;
    } else {
      var front, last := t[..|t| - 1], t[|t| - 1];
      assert (s + t)[..|s + t| - 1] == s + front;
      ValueIsDecimal(s, front);
      var p := PowerOfTen(|front|);
      assert (Value(s) * p + Value(front)) * 10 == Value(s) * (p * 10) + Value(front) * 10;
    }
  }

  function PowerOfTen(k: nat): nat { if k == 0 then 1 else PowerOfTen(k - 1) * 10 }

  lemma ADigit(c: CodeUnit)
    requires IsDigit(c)
    ensures Value([c]) == c - 0x30
  {
    var s := [c];
    assert s[..0] == [];
  }
}
