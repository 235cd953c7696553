/** Texts: their order, and what it means to contain one another. */
module Strings {
  /** Lexicographic order, by code points. */
  predicate Leq(a: string, b: string) {
    a == [] || (b != [] && (a[0] < b[0] || (a[0] == b[0] && Leq(a[1..], b[1..]))))
  }

  lemma {:induction false} LeqTotal(a: string, b: string)
    ensures Leq(a, b) || Leq(b, a)
  {
    if a != [] && b != [] {
      LeqTotal(a[1..], b[1..]);
    }
  }

  lemma {:induction false} LeqAntisymmetric(a: string, b: string)
    requires Leq(a, b) && Leq(b, a)
    ensures a == b
  {
    if a != [] && b != [] {
      LeqAntisymmetric(a[1..], b[1..]);
      assert a == [a[0]] + a[1..] && b == [b[0]] + b[1..];
    }
  }

  lemma {:induction false} LeqTransitive(a: string, b: string, c: string)
    requires Leq(a, b) && Leq(b, c)
    ensures Leq(a, c)
  {
    if a != [] && a[0] == b[0] && b[0] == c[0] {
      LeqTransitive(a[1..], b[1..], c[1..]);
    }
  }

  /** What two texts begin with alike does not matter. */
  lemma {:induction false} LeqAfter(common: string, a: string, b: string)
    ensures Leq(common + a, common + b) <==> Leq(a, b)
  {
    if common == [] {
      assert common + a == a && common + b == b;
    } else {
      assert (common + a)[1..] == common[1..] + a && (common + b)[1..] == common[1..] + b;
      LeqAfter(common[1..], a, b);
    }
  }

  /** Up to position i the texts are the same, and there b goes on with a greater character than a, or a ends. */
  predicate BranchesAt(a: string, b: string, i: nat) {
    i <= |a| && i <= |b| && a[..i] == b[..i] && (i == |a| || (i < |b| && a[i] < b[i]))
  }

  lemma {:induction false} BranchLeq(a: string, b: string, i: nat)
    requires BranchesAt(a, b, i)
    ensures Leq(a, b)
  {
    if i > 0 {
      assert a[0] == a[..i][0] == b[..i][0] == b[0];
      assert a[1..][..i - 1] == a[..i][1..] && b[1..][..i - 1] == b[..i][1..];
      BranchLeq(a[1..], b[1..], i - 1);
    }
  }

  lemma {:induction false} LeqExactly(a: string, b: string)
    ensures Leq(a, b) <==> exists i: nat :: BranchesAt(a, b, i)
  {
    if Leq(a, b) {
      if a == [] || a[0] != b[0] {
        assert BranchesAt(a, b, 0);
      } else {
        LeqExactly(a[1..], b[1..]);
        var i: nat :| BranchesAt(a[1..], b[1..], i);
        assert a[..i + 1] == [a[0]] + a[1..][..i] && b[..i + 1] == [b[0]] + b[1..][..i];
        assert BranchesAt(a, b, i + 1);
      }
    }
    forall i: nat | BranchesAt(a, b, i) ensures Leq(a, b) {
      BranchLeq(a, b, i);
    }
  }

  function IsSubstring(sub: string, s: string): bool {
    sub <= s || (s != "" && IsSubstring(sub, s[1..]))
  }

  predicate EndsWith(s: string, suffix: string) {
    |suffix| <= |s| && s[|s| - |suffix|..] == suffix
  }

  predicate Splits(s: string, before: string, sub: string, after: string) {
    s == before + sub + after
  }

  lemma {:induction false} SplitFound(s: string, before: string, sub: string, after: string)
    requires Splits(s, before, sub, after)
    ensures IsSubstring(sub, s)
  {
    if before == [] {
      assert s[..|sub|] == sub;
    } else {
      assert s[1..] == before[1..] + sub + after;
      SplitFound(s[1..], before[1..], sub, after);
    }
  }

  lemma {:induction false} SubstringExactly(sub: string, s: string)
    ensures IsSubstring(sub, s) <==> exists before, after :: Splits(s, before, sub, after)
  {
    if sub <= s {
      assert Splits(s, [], sub, s[|sub|..]);
    } else if IsSubstring(sub, s) {
      SubstringExactly(sub, s[1..]);
      var before, after :| Splits(s[1..], before, sub, after);
      assert s == [s[0]] + s[1..];
      assert Splits(s, [s[0]] + before, sub, after);
    }
    forall before, after | Splits(s, before, sub, after) ensures IsSubstring(sub, s) {
      SplitFound(s, before, sub, after);
    }
  }

  lemma {:induction false} PrefixExactly(s: string, t: string)
    ensures t <= s <==> exists after :: Splits(s, [], t, after)
  {
    if t <= s {
      assert Splits(s, [], t, s[|t|..]);
    }
    if after :| Splits(s, [], t, after) {
      assert s[..|t|] == t;
    }
  }

  lemma {:induction false} SuffixExactly(s: string, t: string)
    ensures EndsWith(s, t) <==> exists before :: Splits(s, before, t, [])
  {
    if EndsWith(s, t) {
      assert Splits(s, s[..|s| - |t|], t, []);
    }
    if before :| Splits(s, before, t, []) {
      assert s[|s| - |t|..] == t;
    }
  }
}
