/** Members of collections. */
module Collections {
  lemma {:induction false} SomeKey<K>(s: set<K>) returns (k: K)
    requires s != {}
    ensures k in s
  {
    k :| k in s;
  }

  lemma {:induction false} Member<T>(s: seq<T>, i: nat) returns (x: T)
    requires i < |s|
    ensures x == s[i] && x in s
  {
    x := s[i];
  }
}
