/** Facts about sequences shared by the buffer models. */
module Sequences {

  /** `t` is what is left of `s` after dropping a prefix. */
  predicate IsSuffix<T(==)>(t: seq<T>, s: seq<T>)
  {
    |t| <= |s| && s[|s| - |t|..] == t
  }

  /** A suffix of the tail is a suffix of the whole. */
  lemma SuffixOfTail<T>(t: seq<T>, s: seq<T>)
    requires |s| > 0 && IsSuffix(t, s[1..])
    ensures IsSuffix(t, s)
  {
    assert s[1..][|s| - 1 - |t|..] == s[|s| - |t|..];
  }
}
