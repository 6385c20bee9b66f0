/** Sequences without duplicates. */
module Sequences {
  predicate NoDuplicates<T(==)>(s: seq<T>) {
    s == [] || (s[0] !in s[1..] && NoDuplicates(s[1..]))
  }

  lemma {:induction false} NoDuplicatesApart<T>(s: seq<T>, i: nat, j: nat)
    requires NoDuplicates(s) && i < |s| && j < |s| && i != j
    ensures s[i] != s[j]
  {
    if i > 0 && j > 0 {
      NoDuplicatesApart(s[1..], i - 1, j - 1);
    } else {
      assert s[if i == 0 then j else i] == s[1..][(if i == 0 then j else i) - 1];
    }
  }
}
