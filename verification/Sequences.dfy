/** Parts of sequences. */
module Sequences {

  /** `part` stands in `s` at `off`. */
  predicate At<T(==)>(s: seq<T>, off: nat, part: seq<T>) {
    off + |part| <= |s| && s[off..off + |part|] == part
  }

  lemma AtSplit<T>(s: seq<T>, off: nat, a: seq<T>, b: seq<T>)
    ensures At(s, off, a + b) <==> At(s, off, a) && At(s, off + |a|, b)
  {
    if off + |a| + |b| <= |s| {
      assert s[off..off + |a| + |b|] == s[off..off + |a|] + s[off + |a|..off + |a| + |b|];
      if At(s, off, a + b) {
        assert (a + b)[..|a|] == a && (a + b)[|a|..] == b;
        assert s[off..off + |a| + |b|][..|a|] == s[off..off + |a|];
        assert s[off..off + |a| + |b|][|a|..] == s[off + |a|..off + |a| + |b|];
      }
    }
  }
}
