/** Stock facts about sequences, stated generically so that each is proved once. */
module Sequences {

  lemma TakeSnoc<T>(s: seq<T>, k: nat)
    requires k < |s|
    ensures s[..k + 1] == s[..k] + [s[k]]
  {
  }

  lemma Associative<T>(a: seq<T>, b: seq<T>, c: seq<T>)
    ensures (a + b) + c == a + (b + c)
  {
  }

  lemma SplitAt<T>(s: seq<T>, k: nat)
    requires k <= |s|
    ensures s[..k] + s[k..] == s
  {
  }

  lemma HeadFirst<T>(s: seq<T>, x: T)
    requires s != []
    ensures s + [x] == [s[0]] + (s[1..] + [x])
  {
  }
}
