/** Small facts about sequences that the proofs reuse. */
module Seqs {

  function Last<T>(s: seq<T>): T
    requires s != []
  {
    s[|s| - 1]
  }

  function Init<T>(s: seq<T>): seq<T>
    requires s != []
  {
    s[..|s| - 1]
  }

  lemma SnocParts<T>(a: seq<T>, b: seq<T>)
    requires b != []
    ensures b == Init(b) + [Last(b)]
    ensures a + b == (a + Init(b)) + [Last(b)]
  {
    assert b == Init(b) + [Last(b)];
    Assoc(a, Init(b), [Last(b)]);
  }

  lemma Assoc<T>(a: seq<T>, b: seq<T>, c: seq<T>)
    ensures (a + b) + c == a + (b + c)
  {
  }

  lemma SnocInit<T>(a: seq<T>, x: T)
    ensures (a + [x])[..|a|] == a && Init(a + [x]) == a && Last(a + [x]) == x
  {
  }

  lemma Whole<T>(s: seq<T>)
    ensures s[..|s|] == s && s[0..] == s
  {
  }

  lemma Grow<T>(s: seq<T>, i: nat)
    requires i < |s|
    ensures s[..i + 1] == s[..i] + [s[i]]
  {
  }

  lemma TailParts<T>(s: seq<T>, i: nat, j: nat)
    requires i <= j <= |s|
    ensures s[i..] == s[i..j] + s[j..]
  {
  }
}
