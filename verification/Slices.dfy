/** Parts of sequences by their position. */
module Slices {

  // s continues with part at i.
  ghost predicate At<T>(s: seq<T>, i: nat, part: seq<T>) {
    i + |part| <= |s| && s[i..i + |part|] == part
  }

  lemma AtSplit<T>(s: seq<T>, i: nat, a: seq<T>, b: seq<T>)
    requires At(s, i, a + b)
    ensures At(s, i, a) && At(s, i + |a|, b)
  {
    var ab := a + b;
    assert ab[..|a|] == a && ab[|a|..] == b;
    assert s[i..i + |ab|][..|a|] == s[i..i + |a|];
    assert s[i..i + |ab|][|a|..] == s[i + |a|..i + |a| + |b|];
  }
}
