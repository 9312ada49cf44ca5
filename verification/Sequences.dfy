/** Facts about concatenation that proofs use by name instead of leaving them to the solver. */
module Sequences {

  lemma Associative<T>(a: seq<T>, b: seq<T>, c: seq<T>)
    ensures (a + b) + c == a + (b + c)
  {
  }

  lemma OneMore<T>(s: seq<T>, k: nat)
    requires k < |s|
    ensures s[..k] + [s[k]] == s[..k + 1]
    ensures s[..|s|] == s
  {
  }

  lemma ConcatPrefix<T>(a: seq<T>, b: seq<T>, i: nat)
    requires i < |a + b|
    ensures i < |a| ==> (a + b)[..i] == a[..i] && (a + b)[i] == a[i]
    ensures i >= |a| ==> (a + b)[..i] == a + b[..i - |a|] && (a + b)[i] == b[i - |a|]
  {
  }
}
