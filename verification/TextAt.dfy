/** Text at a position of a string. */
module TextAt {
  /** `w` stands at position `p`. */
  predicate At(s: string, p: nat, w: string)
  {
    p + |w| <= |s| && s[p..p + |w|] == w
  }

  lemma AtSplits(s: string, p: nat, a: string, b: string)
    requires At(s, p, a + b)
    ensures At(s, p, a) && At(s, p + |a|, b)
  {
    assert s[p..p + |a|] == (a + b)[..|a|] == a;
    assert s[p + |a|..p + |a| + |b|] == (a + b)[|a|..] == b;
  }

  lemma AtIndex(s: string, p: nat, w: string, i: nat)
    requires At(s, p, w) && i < |w|
    ensures s[p + i] == w[i]
  {
    assert s[p..p + |w|][i] == s[p + i];
  }
}
