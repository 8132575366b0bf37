/** What the distance counts: single edits that turn one text into the other. */
module EditScripts {
  import opened Text
  import opened EditDistance

  /** One character deleted, inserted or replaced, or two neighbours exchanged, at position `p`. */
  ghost predicate EditAt(s: Text, t: Text, p: nat) {
    || (p < |s| && t == s[..p] + s[p + 1..])
    || (p < |t| && s == t[..p] + t[p + 1..])
    || (p < |s| && |t| == |s| && t == s[..p] + [t[p]] + s[p + 1..])
    || (p + 1 < |s| && t == s[..p] + [s[p + 1], s[p]] + s[p + 2..])
  }

  ghost predicate OneEdit(s: Text, t: Text) {
    exists p: nat :: EditAt(s, t, p)
  }

  /** `n` edits lead from `s` to `t`. */
  ghost predicate Edits(s: Text, t: Text, n: nat)
    decreases n
  {
    if n == 0 then s == t else exists u :: OneEdit(s, u) && Edits(u, t, n - 1)
  }

  lemma {:induction false} EditsThrough(s: Text, t: Text, u: Text, m: nat, n: nat)
    requires Edits(s, t, m) && Edits(t, u, n)
    ensures Edits(s, u, m + n)
    decreases m
  {
    if m > 0 {
      var v :| OneEdit(s, v) && Edits(v, t, m - 1);
      EditsThrough(v, t, u, m - 1, n);
    }
  }

  lemma DeletionBefore(s: Text, t: Text, p: nat, rest: Text)
    requires p < |s| && t == s[..p] + s[p + 1..]
    ensures t + rest == (s + rest)[..p] + (s + rest)[p + 1..]
  {
  }

  lemma ReplacementBefore(s: Text, t: Text, p: nat, rest: Text)
    requires p < |s| && |t| == |s| && t == s[..p] + [t[p]] + s[p + 1..]
    ensures t + rest == (s + rest)[..p] + [(t + rest)[p]] + (s + rest)[p + 1..]
  {
  }

  lemma ExchangeBefore(s: Text, t: Text, p: nat, rest: Text)
    requires p + 1 < |s| && t == s[..p] + [s[p + 1], s[p]] + s[p + 2..]
    ensures t + rest == (s + rest)[..p] + [(s + rest)[p + 1], (s + rest)[p]] + (s + rest)[p + 2..]
  {
  }

  /** Edits leave what follows untouched. */
  lemma EditBefore(s: Text, t: Text, rest: Text)
    requires OneEdit(s, t)
    ensures OneEdit(s + rest, t + rest)
  {
    var p: nat :| EditAt(s, t, p);
    if p < |s| && t == s[..p] + s[p + 1..] {
      DeletionBefore(s, t, p, rest);
    } else if p < |t| && s == t[..p] + t[p + 1..] {
      DeletionBefore(t, s, p, rest);
    } else if p < |s| && |t| == |s| && t == s[..p] + [t[p]] + s[p + 1..] {
      ReplacementBefore(s, t, p, rest);
    } else {
      ExchangeBefore(s, t, p, rest);
    }
    assert EditAt(s + rest, t + rest, p);
  }

  lemma {:induction false} EditsBefore(s: Text, t: Text, n: nat, rest: Text)
    requires Edits(s, t, n)
    ensures Edits(s + rest, t + rest, n)
    decreases n
  {
    if n > 0 {
      var u :| OneEdit(s, u) && Edits(u, t, n - 1);
      EditBefore(s, u, rest);
      EditsBefore(u, t, n - 1, rest);
    }
  }

  lemma SingleEdit(s: Text, t: Text, p: nat)
    requires EditAt(s, t, p)
    ensures Edits(s, t, 1)
  {
    assert OneEdit(s, t) && Edits(t, t, 0);
  }

  lemma NoEdits(s: Text)
    ensures Edits(s, s, 0)
  {
  }

  lemma DeleteLast(s: Text, c: CodeUnit)
    ensures Edits(s + [c], s, 1) && Edits(s, s + [c], 1)
  {
    var t := s + [c];
    assert s == t[..|s|] + t[|s| + 1..];
    hide Edits;
    SingleEdit(t, s, |s|);
    SingleEdit(s, t, |s|);
  }

  /** Deleting the end of a text, and inserting one, a character at a time. */
  lemma {:induction false} DeleteTail(s: Text, rest: Text)
    ensures Edits(s + rest, s, |rest|) && Edits(s, s + rest, |rest|)
    decreases |rest|
  {
    hide Edits;
    if rest == [] {
      assert s + rest == s;
      NoEdits(s);
    } else {
      var front := rest[..|rest| - 1];
      var longer := s + front;
      assert s + rest == longer + [rest[|rest| - 1]];
      DeleteLast(longer, rest[|rest| - 1]);
      DeleteTail(s, front);
      EditsThrough(s + rest, longer, s, 1, |front|);
      EditsThrough(s, longer, s + rest, |front|, 1);
    }
  }

  lemma Exchange(prefix: Text, x: CodeUnit, y: CodeUnit)
    ensures Edits(prefix + [x] + [y], prefix + [y] + [x], 1)
  {
    var s, t := prefix + [x] + [y], prefix + [y] + [x];
    assert t == s[..|prefix|] + [s[|prefix| + 1], s[|prefix|]] + s[|prefix| + 2..];
    assert EditAt(s, t, |prefix|);
    hide Edits;
    SingleEdit(s, t, |prefix|);
  }

  /** `P x U y` becomes `P y V x`: delete what is between, exchange the two, insert what belongs between. */
  lemma Transpose(prefix: Text, x: CodeUnit, u: Text, y: CodeUnit, v: Text)
    ensures Edits(prefix + [x] + u + [y], prefix + [y] + v + [x], |u| + 1 + |v|)
  {
    hide Edits, OneEdit, EditAt;
    DeleteTail(prefix + [x], u);
    EditsBefore(prefix + [x] + u, prefix + [x], |u|, [y]);
    var together, exchanged := prefix + [x] + [y], prefix + [y] + [x];
    Exchange(prefix, x, y);
    DeleteTail(prefix + [y], v);
    EditsBefore(prefix + [y], prefix + [y] + v, |v|, [x]);
    EditsThrough(prefix + [x] + u + [y], together, exchanged, |u|, 1);
    EditsThrough(prefix + [x] + u + [y], exchanged, prefix + [y] + v + [x], |u| + 1, |v|);
  }

  lemma TransposeStep(a: Text, b: Text, i: nat, j: nat, k: nat, l: nat, d: nat)
    requires 0 < k < i <= |a| && 0 < l < j <= |b| && a[k - 1] == b[j - 1] && b[l - 1] == a[i - 1]
    requires Edits(a[..k - 1], b[..l - 1], d)
    ensures Edits(a[..i], b[..j], d + (i - k - 1) + 1 + (j - l - 1))
  {
    hide Edits;
    var x, y, u, v := a[k - 1], a[i - 1], a[k..i - 1], b[l..j - 1];
    var p, q := a[..k - 1], b[..l - 1];
    var after := [x] + u + [y];
    assert a[..i] == p + after && p + after == p + [x] + u + [y];
    EditsBefore(p, q, d, after);
    assert q + after == q + [x] + u + [y];
    Transpose(q, x, u, y, v);
    assert b[..j] == q + [y] + v + [x];
    EditsThrough(a[..i], q + after, b[..j], d, |u| + 1 + |v|);
  }

  lemma ReplaceLast(s: Text, c: CodeUnit, d: CodeUnit)
    ensures Edits(s + [c], s + [d], 1)
  {
    var t, u := s + [c], s + [d];
    assert u == t[..|s|] + [u[|s|]] + t[|s| + 1..];
    hide Edits;
    SingleEdit(t, u, |s|);
  }

  lemma SubstituteStep(a: Text, b: Text, i: nat, j: nat, d: nat)
    requires 0 < i <= |a| && 0 < j <= |b| && Edits(a[..i - 1], b[..j - 1], d)
    ensures Edits(a[..i], b[..j], d + Swap(a, b, i, j))
  {
    hide Edits, EditAt;
    assert a[..i] == a[..i - 1] + [a[i - 1]];
    EditsBefore(a[..i - 1], b[..j - 1], d, [a[i - 1]]);
    var s := b[..j - 1] + [a[i - 1]];
    assert b[..j] == b[..j - 1] + [b[j - 1]];
    if a[i - 1] != b[j - 1] {
      ReplaceLast(b[..j - 1], a[i - 1], b[j - 1]);
      EditsThrough(a[..i], s, b[..j], d, 1);
    }
  }

  lemma InsertStep(a: Text, b: Text, i: nat, j: nat, d: nat)
    requires i <= |a| && 0 < j <= |b| && Edits(a[..i], b[..j - 1], d)
    ensures Edits(a[..i], b[..j], d + 1)
  {
    hide Edits;
    assert b[..j] == b[..j - 1] + [b[j - 1]];
    DeleteTail(b[..j - 1], [b[j - 1]]);
    EditsThrough(a[..i], b[..j - 1], b[..j], d, 1);
  }

  lemma DeleteStep(a: Text, b: Text, i: nat, j: nat, d: nat)
    requires 0 < i <= |a| && j <= |b| && Edits(a[..i - 1], b[..j], d)
    ensures Edits(a[..i], b[..j], d + 1)
  {
    hide Edits;
    assert a[..i] == a[..i - 1] + [a[i - 1]];
    DeleteTail(a[..i - 1], [a[i - 1]]);
    EditsThrough(a[..i], a[..i - 1], b[..j], 1, d);
  }

  /** As many edits as the distance says turn one text into the other. */
  lemma {:induction false} DistanceIsReached(a: Text, b: Text, i: nat, j: nat)
    requires i <= |a| && j <= |b|
    ensures Edits(a[..i], b[..j], Distance(a, b, i, j))
    decreases i + j
  {
    hide Distance, Edits, PriorRow, PriorColumn, Swap;
    if i == 0 || j == 0 {
      NoDistance(a, b, i, j);
      assert [] + a[..i] == a[..i] && [] + b[..j] == b[..j];
      DeleteTail([], if i == 0 then b[..j] else a[..i]);
    } else {
      DistanceStep(a, b, i, j);
      DistanceIsReached(a, b, i - 1, j - 1);
      DistanceIsReached(a, b, i, j - 1);
      DistanceIsReached(a, b, i - 1, j);
      SubstituteStep(a, b, i, j, Distance(a, b, i - 1, j - 1));
      InsertStep(a, b, i, j, Distance(a, b, i, j - 1));
      DeleteStep(a, b, i, j, Distance(a, b, i - 1, j));
      var k, l := PriorRow(a, b, i, j), PriorColumn(a, b, i, j);
      if k > 0 && l > 0 {
        PriorPair(a, b, i, j);
        DistanceIsReached(a, b, k - 1, l - 1);
        TransposeStep(a, b, i, j, k, l, Distance(a, b, k - 1, l - 1));
      }
    }
  }

  lemma PriorPair(a: Text, b: Text, i: nat, j: nat)
    requires 0 < i <= |a| && 0 < j <= |b|
    ensures var k, l := PriorRow(a, b, i, j), PriorColumn(a, b, i, j);
            (k > 0 ==> k < i && a[k - 1] == b[j - 1]) && (l > 0 ==> l < j && b[l - 1] == a[i - 1])
  {
  }
}
