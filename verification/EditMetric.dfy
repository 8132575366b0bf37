/**
 No script of single edits is shorter than the distance: one edit of a text changes its distance from any
 other by at most one.
 */
module EditMetric {
  import opened Text
  import opened EditDistance
  import opened EditScripts

  // What the recurrence allows, for any pair of prefixes.

  lemma {:induction false} Deletes(a: Text, b: Text, i: nat, i': nat, j: nat)
    requires i <= i' <= |a| && j <= |b|
    ensures Distance(a, b, i', j) <= Distance(a, b, i, j) + i' - i
    decreases i'
  {
    hide Distance, PriorRow, PriorColumn;
    if i < i' {
      Deletes(a, b, i, i' - 1, j);
      if j == 0 { NoDistance(a, b, i', j); NoDistance(a, b, i' - 1, j); } else { DistanceStep(a, b, i', j); }
    }
  }

  lemma {:induction false} Inserts(a: Text, b: Text, i: nat, j: nat, j': nat)
    requires i <= |a| && j <= j' <= |b|
    ensures Distance(a, b, i, j') <= Distance(a, b, i, j) + j' - j
    decreases j'
  {
    hide Distance, PriorRow, PriorColumn;
    if j < j' {
      Inserts(a, b, i, j, j' - 1);
      if i == 0 { NoDistance(a, b, i, j'); NoDistance(a, b, i, j' - 1); } else { DistanceStep(a, b, i, j'); }
    }
  }

  lemma Substitutes(a: Text, b: Text, i: nat, j: nat)
    requires 0 < i <= |a| && 0 < j <= |b|
    ensures Distance(a, b, i, j) <= Distance(a, b, i - 1, j - 1) + Swap(a, b, i, j)
  {
    hide Distance, PriorRow, PriorColumn, Swap;
    DistanceStep(a, b, i, j);
  }

  /** Everything before a common character is deleted or inserted on the way to it, and everything after it. */
  lemma Matches(a: Text, b: Text, i0: nat, j0: nat, k: nat, l: nat, i: nat, j: nat)
    requires i0 < k <= i <= |a| && j0 < l <= j <= |b| && a[k - 1] == b[l - 1]
    ensures Distance(a, b, i, j) <= Distance(a, b, i0, j0) + (k - 1 - i0) + (l - 1 - j0) + (i - k) + (j - l)
  {
    hide Distance;
    Deletes(a, b, i0, k - 1, j0);
    Inserts(a, b, k - 1, j0, l - 1);
    Substitutes(a, b, k, l);
    Deletes(a, b, k, i, l);
    Inserts(a, b, i, l, j);
  }

  /** Any pair that a transposition can bring together bounds the distance, not the nearest alone. */
  lemma Transposes(a: Text, b: Text, i: nat, j: nat, k: nat, l: nat)
    requires 0 < k < i <= |a| && 0 < l < j <= |b| && a[k - 1] == b[j - 1] && b[l - 1] == a[i - 1]
    ensures Distance(a, b, i, j) <= Distance(a, b, k - 1, l - 1) + (i - k - 1) + 1 + (j - l - 1)
  {
    hide Distance;
    var row, column := PriorRow(a, b, i, j), PriorColumn(a, b, i, j);
    assert k <= row && l <= column;
    DistanceStep(a, b, i, j);
    hide PriorRow, PriorColumn;
    Deletes(a, b, k - 1, row - 1, l - 1);
    Inserts(a, b, row - 1, l - 1, column - 1);
  }

  /** The distance is that of a transposed pair. */
  ghost predicate Crossed(a: Text, b: Text, i: nat, j: nat, k: nat, l: nat)
    requires i <= |a| && j <= |b|
  {
    && 0 < k < i && 0 < l < j && a[k - 1] == b[j - 1] && b[l - 1] == a[i - 1]
    && Distance(a, b, i, j) == Distance(a, b, k - 1, l - 1) + (i - k - 1) + 1 + (j - l - 1)
  }

  /** How a distance comes about. */
  datatype LastEdit = Deleted | Inserted | Substituted | Exchanged(k: nat, l: nat)

  ghost predicate Comes(a: Text, b: Text, i: nat, j: nat, last: LastEdit)
    requires 0 < i <= |a| && 0 < j <= |b|
  {
    match last
    case Deleted => Distance(a, b, i, j) == Distance(a, b, i - 1, j) + 1
    case Inserted => Distance(a, b, i, j) == Distance(a, b, i, j - 1) + 1
    case Substituted => Distance(a, b, i, j) == Distance(a, b, i - 1, j - 1) + Swap(a, b, i, j)
    case Exchanged(k, l) => Crossed(a, b, i, j, k, l)
  }

  lemma HowItComes(a: Text, b: Text, i: nat, j: nat) returns (last: LastEdit)
    requires 0 < i <= |a| && 0 < j <= |b|
    ensures Comes(a, b, i, j, last)
  {
    hide Distance, PriorRow, PriorColumn, Swap;
    DistanceStep(a, b, i, j);
    PriorPair(a, b, i, j);
    if Distance(a, b, i, j) == Distance(a, b, i - 1, j) + 1 {
      last := Deleted;
    } else if Distance(a, b, i, j) == Distance(a, b, i, j - 1) + 1 {
      last := Inserted;
    } else if Distance(a, b, i, j) == Distance(a, b, i - 1, j - 1) + Swap(a, b, i, j) {
      last := Substituted;
    } else {
      last := Exchanged(PriorRow(a, b, i, j), PriorColumn(a, b, i, j));
    }
  }

  lemma {:induction false} SameLast(a: Text, a': Text, k: nat, c: CodeUnit)
    requires k <= |a| && k <= |a'| && forall q :: 0 <= q < k ==> a[q] == a'[q]
    ensures Last(a, k, c) == Last(a', k, c)
  {
    if k > 0 {
      SameLast(a, a', k - 1, c);
    }
  }

  /** Only the prefix matters. */
  lemma {:induction false} SamePrefix(a: Text, a': Text, b: Text, i: nat, j: nat)
    requires i <= |a| && i <= |a'| && j <= |b| && forall q :: 0 <= q < i ==> a[q] == a'[q]
    ensures Distance(a, b, i, j) == Distance(a', b, i, j)
    decreases i + j
  {
    hide Distance;
    if i == 0 || j == 0 {
      NoDistance(a, b, i, j);
      NoDistance(a', b, i, j);
    } else {
      SameLast(a, a', i - 1, b[j - 1]);
      DistanceStep(a, b, i, j);
      DistanceStep(a', b, i, j);
      SamePrefix(a, a', b, i - 1, j - 1);
      SamePrefix(a, a', b, i - 1, j);
      SamePrefix(a, a', b, i, j - 1);
      var k, l := PriorRow(a, b, i, j), PriorColumn(a, b, i, j);
      assert PriorRow(a', b, i, j) == k && PriorColumn(a', b, i, j) == l && Swap(a, b, i, j) == Swap(a', b, i, j);
      hide PriorRow, PriorColumn, Swap;
      if k > 0 && l > 0 { SamePrefix(a, a', b, k - 1, l - 1); }
    }
  }

  // A deletion.

  ghost predicate Deletion(s: Text, u: Text, p: nat) {
    p < |s| && |u| == |s| - 1 && (forall q :: 0 <= q < p ==> u[q] == s[q])
      && (forall q :: p <= q < |u| ==> u[q] == s[q + 1])
  }

  lemma DeletionExchanged(s: Text, u: Text, t: Text, p: nat, i: nat, j: nat, k: nat, l: nat)
    requires Deletion(s, u, p) && p < i <= |u| && j <= |t| && Crossed(u, t, i, j, k, l)
    requires k > p ==> Distance(s, t, k, l - 1) <= Distance(u, t, k - 1, l - 1) + 1
    ensures Distance(s, t, i + 1, j) <= Distance(u, t, i, j) + 1
  {
    hide Distance;
    assert u[i - 1] == s[i];
    if k > p {
      assert u[k - 1] == s[k];
      Transposes(s, t, i + 1, j, k + 1, l);
    } else {
      assert u[k - 1] == s[k - 1];
      Transposes(s, t, i + 1, j, k, l);
      SamePrefix(s, u, t, k - 1, l - 1);
    }
  }

  lemma {:induction false} DeletionCosts(s: Text, u: Text, t: Text, p: nat, i: nat, j: nat)
    requires Deletion(s, u, p) && p <= i <= |u| && j <= |t|
    ensures Distance(s, t, i + 1, j) <= Distance(u, t, i, j) + 1
    decreases i + j
  {
    hide Distance;
    if i == p {
      Deletes(s, t, i, i + 1, j);
      SamePrefix(s, u, t, i, j);
    } else if j == 0 {
      NoDistance(s, t, i + 1, j);
      NoDistance(u, t, i, j);
    } else {
      var last := HowItComes(u, t, i, j);
      match last {
        case Deleted => DeletionCosts(s, u, t, p, i - 1, j); Deletes(s, t, i, i + 1, j);
        case Inserted => DeletionCosts(s, u, t, p, i, j - 1); Inserts(s, t, i + 1, j - 1, j);
        case Substituted =>
          DeletionCosts(s, u, t, p, i - 1, j - 1);
          assert u[i - 1] == s[i];
          Substitutes(s, t, i + 1, j);
        case Exchanged(k, l) =>
          if k > p { DeletionCosts(s, u, t, p, k - 1, l - 1); }
          DeletionExchanged(s, u, t, p, i, j, k, l);
      }
    }
  }

  // An insertion: `s` is `u` without its character at `p`.

  lemma InsertionExchanged(s: Text, u: Text, t: Text, p: nat, i: nat, j: nat, k: nat, l: nat)
    requires Deletion(u, s, p) && p <= i <= |s| && j <= |t| && Crossed(u, t, i + 1, j, k, l)
    requires k > p + 1 ==> Distance(s, t, k - 2, l - 1) <= Distance(u, t, k - 1, l - 1) + 1
    ensures Distance(s, t, i, j) <= Distance(u, t, i + 1, j) + 1
  {
    hide Distance;
    if k <= p {
      assert u[k - 1] == s[k - 1];
      SamePrefix(s, u, t, k - 1, l - 1);
      Matches(s, t, k - 1, l - 1, k, j, i, j);
    } else {
      assert u[i] == s[i - 1];
      if k == p + 1 {
        SamePrefix(s, u, t, p, l - 1);
        Matches(s, t, p, l - 1, i, l, i, j);
      } else {
        assert u[k - 1] == s[k - 2];
        Transposes(s, t, i, j, k - 1, l);
      }
    }
  }

  lemma {:induction false} InsertionCosts(s: Text, u: Text, t: Text, p: nat, i: nat, j: nat)
    requires Deletion(u, s, p) && p <= i <= |s| && j <= |t|
    ensures Distance(s, t, i, j) <= Distance(u, t, i + 1, j) + 1
    decreases i + j
  {
    hide Distance;
    if j == 0 {
      NoDistance(s, t, i, j);
      NoDistance(u, t, i + 1, j);
    } else {
      if i == p { SamePrefix(s, u, t, p, j); SamePrefix(s, u, t, p, j - 1); }
      var last := HowItComes(u, t, i + 1, j);
      match last {
        case Deleted => if i > p { InsertionCosts(s, u, t, p, i - 1, j); Deletes(s, t, i - 1, i, j); }
        case Inserted => InsertionCosts(s, u, t, p, i, j - 1); Inserts(s, t, i, j - 1, j);
        case Substituted =>
          if i > p {
            InsertionCosts(s, u, t, p, i - 1, j - 1);
            assert u[i] == s[i - 1];
            Substitutes(s, t, i, j);
          } else {
            Inserts(s, t, i, j - 1, j);
          }
        case Exchanged(k, l) =>
          if k > p + 1 { InsertionCosts(s, u, t, p, k - 2, l - 1); }
          InsertionExchanged(s, u, t, p, i, j, k, l);
      }
    }
  }

  // A substitution.

  ghost predicate Substitution(s: Text, u: Text, p: nat) {
    p < |s| == |u| && forall q :: 0 <= q < |s| && q != p ==> u[q] == s[q]
  }

  lemma SubstitutionExchanged(s: Text, u: Text, t: Text, p: nat, i: nat, j: nat, k: nat, l: nat)
    requires Substitution(s, u, p) && p < i <= |s| && j <= |t| && Crossed(u, t, i, j, k, l)
    requires Distance(s, t, k - 1, l - 1) <= Distance(u, t, k - 1, l - 1) + if k > p + 1 then 1 else 0
    ensures Distance(s, t, i, j) <= Distance(u, t, i, j) + 1
  {
    hide Distance;
    if i == p + 1 {
      Matches(s, t, k - 1, l - 1, k, j, i, j);
    } else if k == p + 1 {
      Matches(s, t, p, l - 1, i, l, i, j);
    } else {
      Transposes(s, t, i, j, k, l);
    }
  }

  lemma {:induction false} SubstitutionCosts(s: Text, u: Text, t: Text, p: nat, i: nat, j: nat)
    requires Substitution(s, u, p) && i <= |s| && j <= |t|
    ensures Distance(s, t, i, j) <= Distance(u, t, i, j) + if i > p then 1 else 0
    decreases i + j
  {
    hide Distance;
    if i <= p {
      SamePrefix(s, u, t, i, j);
    } else if j == 0 {
      NoDistance(s, t, i, j);
      NoDistance(u, t, i, j);
    } else {
      var last := HowItComes(u, t, i, j);
      match last {
        case Deleted => SubstitutionCosts(s, u, t, p, i - 1, j); Deletes(s, t, i - 1, i, j);
        case Inserted => SubstitutionCosts(s, u, t, p, i, j - 1); Inserts(s, t, i, j - 1, j);
        case Substituted => SubstitutionCosts(s, u, t, p, i - 1, j - 1); Substitutes(s, t, i, j);
        case Exchanged(k, l) =>
          SubstitutionCosts(s, u, t, p, k - 1, l - 1);
          SubstitutionExchanged(s, u, t, p, i, j, k, l);
      }
    }
  }

  // An exchange of neighbours: `s` is `P x y Q`, `u` is `P y x Q`.

  ghost predicate Exchanges(s: Text, u: Text, p: nat) {
    && p + 1 < |s| == |u| && s[p] == u[p + 1] && s[p + 1] == u[p]
    && forall q :: 0 <= q < |s| && q != p && q != p + 1 ==> u[q] == s[q]
  }

  /** `P x y` is one deletion from `P y`. */
  lemma WithoutFirst(s: Text, u: Text, t: Text, p: nat, j: nat)
    requires Exchanges(s, u, p) && j <= |t|
    ensures Distance(s, t, p + 2, j) <= Distance(u, t, p + 1, j) + 1
  {
    hide Distance;
    var shorter := s[..p] + s[p + 1..];
    DeletionCosts(s, shorter, t, p, p + 1, j);
    SamePrefix(shorter, u, t, p + 1, j);
  }

  /** When `x` matches the character at `j`, `P x y` reaches it from any earlier meeting of `P y`. */
  lemma {:induction false} MatchAcross(s: Text, u: Text, t: Text, p: nat, m: nat, j: nat)
    requires Exchanges(s, u, p) && m < j <= |t| && s[p] == t[j - 1]
    ensures Distance(s, t, p + 2, j) <= Distance(u, t, p + 1, m) + (j - 1 - m) + 1
    decreases m
  {
    hide Distance;
    SamePrefix(s, u, t, p, m);
    if m == 0 {
      Matches(s, t, p, m, p + 1, j, p + 2, j);
      NoDistance(s, t, p, m);
      NoDistance(u, t, p + 1, m);
    } else {
      SamePrefix(s, u, t, p, m - 1);
      var last := HowItComes(u, t, p + 1, m);
      match last {
        case Deleted => Matches(s, t, p, m, p + 1, j, p + 2, j);
        case Inserted => MatchAcross(s, u, t, p, m - 1, j);
        case Substituted =>
          if u[p] == t[m - 1] { Transposes(s, t, p + 2, j, p + 1, m); }
          else { Matches(s, t, p, m - 1, p + 1, j, p + 2, j); }
        case Exchanged(k, l) =>
          SamePrefix(s, u, t, k - 1, l - 1);
          Matches(s, t, k - 1, l - 1, k, m, p, m);
          Matches(s, t, p, m, p + 1, j, p + 2, j);
      }
    }
  }

  lemma {:induction false} ExchangeAtEnd(s: Text, u: Text, t: Text, p: nat, j: nat)
    requires Exchanges(s, u, p) && j <= |t|
    ensures Distance(s, t, p + 2, j) <= Distance(u, t, p + 2, j) + 1
    decreases j
  {
    hide Distance;
    if j == 0 {
      NoDistance(s, t, p + 2, j);
      NoDistance(u, t, p + 2, j);
    } else {
      var last := HowItComes(u, t, p + 2, j);
      match last {
        case Deleted => WithoutFirst(s, u, t, p, j);
        case Inserted => ExchangeAtEnd(s, u, t, p, j - 1); Inserts(s, t, p + 2, j - 1, j);
        case Substituted =>
          if u[p + 1] == t[j - 1] {
            MatchAcross(s, u, t, p, j - 1, j);
          } else {
            WithoutFirst(s, u, t, p, j - 1);
            Inserts(s, t, p + 2, j - 1, j);
          }
        case Exchanged(k, l) => EndExchanged(s, u, t, p, j, k, l);
      }
    }
  }

  lemma EndExchanged(s: Text, u: Text, t: Text, p: nat, j: nat, k: nat, l: nat)
    requires Exchanges(s, u, p) && j <= |t| && Crossed(u, t, p + 2, j, k, l)
    ensures Distance(s, t, p + 2, j) <= Distance(u, t, p + 2, j) + 1
  {
    hide Distance;
    SamePrefix(s, u, t, k - 1, l - 1);
    if k == p + 1 {
      Matches(s, t, p, l - 1, p + 1, l, p + 1, j - 1);
      Substitutes(s, t, p + 2, j);
    } else {
      Matches(s, t, k - 1, l - 1, k, j, p + 2, j);
    }
  }

  lemma ExchangeExchanged(s: Text, u: Text, t: Text, p: nat, i: nat, j: nat, k: nat, l: nat)
    requires Exchanges(s, u, p) && p + 2 < i <= |s| && j <= |t| && Crossed(u, t, i, j, k, l)
    requires k > p + 2 ==> Distance(s, t, k - 1, l - 1) <= Distance(u, t, k - 1, l - 1) + 1
    ensures Distance(s, t, i, j) <= Distance(u, t, i, j) + 1
  {
    hide Distance;
    if k > p + 2 {
      Transposes(s, t, i, j, k, l);
    } else if k == p + 2 {
      WithoutFirst(s, u, t, p, l - 1);
      Matches(s, t, p + 2, l - 1, i, l, i, j);
    } else {
      SamePrefix(s, u, t, k - 1, l - 1);
      if k == p + 1 {
        Transposes(s, t, i, j, p + 2, l);
        Deletes(s, t, p, p + 1, l - 1);
      } else {
        Transposes(s, t, i, j, k, l);
      }
    }
  }

  lemma {:induction false} ExchangeCosts(s: Text, u: Text, t: Text, p: nat, i: nat, j: nat)
    requires Exchanges(s, u, p) && p + 2 <= i <= |s| && j <= |t|
    ensures Distance(s, t, i, j) <= Distance(u, t, i, j) + 1
    decreases i + j
  {
    hide Distance;
    if i == p + 2 {
      ExchangeAtEnd(s, u, t, p, j);
    } else if j == 0 {
      NoDistance(s, t, i, j);
      NoDistance(u, t, i, j);
    } else {
      var last := HowItComes(u, t, i, j);
      match last {
        case Deleted => ExchangeCosts(s, u, t, p, i - 1, j); Deletes(s, t, i - 1, i, j);
        case Inserted => ExchangeCosts(s, u, t, p, i, j - 1); Inserts(s, t, i, j - 1, j);
        case Substituted => ExchangeCosts(s, u, t, p, i - 1, j - 1); Substitutes(s, t, i, j);
        case Exchanged(k, l) =>
          if k > p + 2 { ExchangeCosts(s, u, t, p, k - 1, l - 1); }
          ExchangeExchanged(s, u, t, p, i, j, k, l);
      }
    }
  }

  // Scripts.

  /** The four kinds of edit, character by character. */
  lemma WhichEdit(s: Text, u: Text, p: nat)
    requires EditAt(s, u, p)
    ensures Deletion(s, u, p) || Deletion(u, s, p) || Substitution(s, u, p) || Exchanges(s, u, p)
  {
    if p < |s| && u == s[..p] + s[p + 1..] {
      assert Deletion(s, u, p);
    } else if p < |u| && s == u[..p] + u[p + 1..] {
      assert Deletion(u, s, p);
    } else if p < |s| && |u| == |s| && u == s[..p] + [u[p]] + s[p + 1..] {
      assert Substitution(s, u, p);
    }
  }

  /** One edit changes the distance from any text by at most one. */
  lemma OneEditCosts(s: Text, u: Text, t: Text)
    requires OneEdit(s, u)
    ensures Distance(s, t, |s|, |t|) <= Distance(u, t, |u|, |t|) + 1
  {
    hide Distance, EditAt;
    var p: nat :| EditAt(s, u, p);
    WhichEdit(s, u, p);
    if Deletion(s, u, p) {
      DeletionCosts(s, u, t, p, |u|, |t|);
    } else if Deletion(u, s, p) {
      InsertionCosts(s, u, t, p, |s|, |t|);
    } else if Substitution(s, u, p) {
      SubstitutionCosts(s, u, t, p, |s|, |t|);
    } else {
      ExchangeCosts(s, u, t, p, |s|, |t|);
    }
  }

  /** Every script that turns one text into another has at least as many edits as the distance says. */
  lemma {:induction false} NoShorterScript(s: Text, t: Text, n: nat)
    requires Edits(s, t, n)
    ensures Distance(s, t, |s|, |t|) <= n
    decreases n
  {
    hide Distance, OneEdit;
    if n == 0 {
      ZeroDistance(s, t, |s|, |t|);
    } else {
      var u :| OneEdit(s, u) && Edits(u, t, n - 1);
      OneEditCosts(s, u, t);
      NoShorterScript(u, t, n - 1);
    }
  }

  /** The distance is the least number of single edits that turn one text into the other. */
  lemma DistanceIsLeast(s: Text, t: Text, n: nat)
    ensures Edits(s, t, Distance(s, t, |s|, |t|))
    ensures Edits(s, t, n) ==> Distance(s, t, |s|, |t|) <= n
  {
    hide Distance, Edits;
    DistanceIsReached(s, t, |s|, |t|);
    assert s[..|s|] == s && t[..|t|] == t;
    if Edits(s, t, n) { NoShorterScript(s, t, n); }
  }

  /** So it is a metric: the way over a third text is never shorter. */
  lemma Triangle(s: Text, u: Text, t: Text)
    ensures Distance(s, t, |s|, |t|) <= Distance(s, u, |s|, |u|) + Distance(u, t, |u|, |t|)
  {
    hide Distance, Edits;
    var m, n := Distance(s, u, |s|, |u|), Distance(u, t, |u|, |t|);
    DistanceIsLeast(s, u, m);
    DistanceIsLeast(u, t, n);
    EditsThrough(s, u, t, m, n);
    NoShorterScript(s, t, m + n);
  }
}
