/** Removal from a list and lists without repeats, as the order lists of several maps use them. */
module Sequences {

  function Without<T(==)>(s: seq<T>, x: T): seq<T> {
    if s == [] then []
    else Without(s[..|s| - 1], x) + (if s[|s| - 1] == x then [] else [s[|s| - 1]])
  }

  predicate NoDuplicates<T(==)>(s: seq<T>) {
    forall i, j | 0 <= i < j < |s| :: s[i] != s[j]
  }

  lemma WithoutShrinks<T>(s: seq<T>, x: T)
    ensures |Without(s, x)| <= |s| && (x in s ==> |Without(s, x)| < |s|)
  {
  }

  lemma {:induction false} WithoutFacts<T>(s: seq<T>, x: T)
    ensures forall y :: y in Without(s, x) <==> y in s && y != x
    ensures NoDuplicates(s) ==> NoDuplicates(Without(s, x))
    ensures s != [] && s[0] != x ==> Without(s, x) != [] && Without(s, x)[0] == s[0]
  {
    if s != [] {
      var init, last := s[..|s| - 1], s[|s| - 1];
      WithoutFacts(init, x);
      assert s == init + [last];
      if NoDuplicates(s) {
        assert last !in init;
        assert last !in Without(init, x);
      }
    }
  }
}
