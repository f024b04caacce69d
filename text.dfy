/**
 * Substring search on flag ids: JavaScript's `s.includes(k)`, and the
 * "contains any keyword of a list" test the click targets are built from.
 */
module Text {

  /** `k` occurs in `s` at position `p`: the slice of `s` there is `k`. */
  predicate OccursAt(s: string, k: string, p: nat) {
    p + |k| <= |s| && s[p..p + |k|] == k
  }

  /** `s.includes(k)`: `k` occurs at some position of `s`. */
  predicate Contains(s: string, k: string) {
    exists p: nat :: p <= |s| && OccursAt(s, k, p)
  }

  /** `s.includes(ks[0]) || s.includes(ks[1]) || ...`. */
  predicate ContainsAny(s: string, ks: seq<string>) {
    exists k :: k in ks && Contains(s, k)
  }

  // The scan below is a second, executable reading of `includes`.  The rest of
  // the model uses `Contains`; the scan only cross-checks that slice-based
  // definition (`ScanIffContains`).

  /** A left-to-right scan, compared character by character: is `k` at position `i`, from offset `j` on? */
  predicate MatchAt(s: string, k: string, i: nat, j: nat)
    requires i + |k| <= |s| && j <= |k|
    decreases |k| - j
  {
    j == |k| || (s[i + j] == k[j] && MatchAt(s, k, i, j + 1))
  }

  /** The scan: does `k` start at position `i` or later? */
  predicate ContainsFrom(s: string, k: string, i: nat)
    decreases |s| - i
  {
    i + |k| <= |s| && (MatchAt(s, k, i, 0) || ContainsFrom(s, k, i + 1))
  }

  lemma {:induction false} MatchAtSlice(s: string, k: string, i: nat, j: nat)
    requires i + |k| <= |s| && j <= |k|
    ensures MatchAt(s, k, i, j) <==> s[i + j..i + |k|] == k[j..]
    decreases |k| - j
  {
    if j < |k| {
      MatchAtSlice(s, k, i, j + 1);
      assert s[i + j..i + |k|] == [s[i + j]] + s[i + j + 1..i + |k|];
      assert k[j..] == [k[j]] + k[j + 1..];
    }
  }

  lemma {:induction false} ContainsFromWitness(s: string, k: string, i: nat)
    ensures ContainsFrom(s, k, i) <==> exists p: nat :: i <= p && OccursAt(s, k, p)
    decreases |s| - i
  {
    if i + |k| <= |s| {
      MatchAtSlice(s, k, i, 0);
      ContainsFromWitness(s, k, i + 1);
      if MatchAt(s, k, i, 0) {
        assert OccursAt(s, k, i);
      }
    }
  }

  /** The scan from the start finds `k` exactly when `k` occurs in `s`. */
  lemma ScanIffContains(s: string, k: string)
    ensures ContainsFrom(s, k, 0) <==> Contains(s, k)
  {
    ContainsFromWitness(s, k, 0);
  }

  /** Testing two keyword lists one after the other is testing their concatenation. */
  lemma ContainsAnyConcat(s: string, a: seq<string>, b: seq<string>)
    ensures ContainsAny(s, a + b) <==> ContainsAny(s, a) || ContainsAny(s, b)
  {
    assert forall k :: k in a + b <==> k in a || k in b;
  }

  /** Keyword `i` of `ks` occurs in `a + ks[i] + b`, at position `|a|`. */
  lemma HasKeyword(s: string, ks: seq<string>, i: nat, a: string, b: string)
    requires i < |ks| && s == a + ks[i] + b
    ensures ContainsAny(s, ks)
  {
    assert s[|a|..|a| + |ks[i]|] == ks[i];
    assert OccursAt(s, ks[i], |a|);
    assert ks[i] in ks;
  }

  /** `k` does not occur in `s` when one of its characters appears nowhere in `s`. */
  lemma Lacks(s: string, k: string, d: nat)
    requires d < |k| && k[d] !in s
    ensures !Contains(s, k)
  {
    forall p: nat | p + |k| <= |s|
      ensures !OccursAt(s, k, p)
    {
      assert s[p..p + |k|][d] == s[p + d];
    }
  }

  /**
   * `k` does not occur in `s = a + [k[d]] + b` when its character at offset
   * `d` appears in `s` only between `a` and `b`, and the one placement of `k`
   * that lines up with it (starting at `|a| - d`) differs at offset `j` or
   * does not fit.
   */
  lemma LacksExceptAt(s: string, k: string, d: nat, a: string, b: string, j: nat)
    requires d < |k| && s == a + [k[d]] + b && k[d] !in a && k[d] !in b
    requires d <= |a| && |a| - d + |k| <= |s| ==> j < |k| && s[|a| - d + j] != k[j]
    ensures !Contains(s, k)
  {
    forall p: nat | p + |k| <= |s|
      ensures !OccursAt(s, k, p)
    {
      assert s[p..p + |k|][d] == s[p + d];
      if p + d < |a| {
        assert s[p + d] == a[p + d];
      } else if p + d > |a| {
        assert s[p + d] == b[p + d - |a| - 1];
      } else {
        assert s[p..p + |k|][j] == s[p + j];
      }
    }
  }
}
