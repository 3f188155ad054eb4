/** Facts about sequences that the other modules share. */
module Sequences {

  lemma Three<A>(a: seq<A>, b: seq<A>, c: seq<A>)
    ensures (a + b) + c == a + (b + c)
  {
  }

  lemma Four<A>(a: seq<A>, b: seq<A>, c: seq<A>, d: seq<A>)
    ensures (a + b + c) + d == a + (b + (c + d)) == (a + (b + c)) + d
  {
  }

  lemma Five<A>(a: seq<A>, b: seq<A>, c: seq<A>, d: seq<A>, e: seq<A>)
    ensures a + b + (c + d + e) == (a + b + c) + d + e
  {
  }

  lemma PrefixStep<A>(s: seq<A>, k: nat)
    requires k < |s|
    ensures s[..k + 1] == s[..k] + [s[k]]
  {
  }

  lemma SliceOfPrefix<A>(s: seq<A>, i: nat, j: nat)
    requires i <= j < |s|
    ensures s[..j + 1][i..] == s[i..j + 1]
    ensures s[i..j + 1][0] == s[i] && s[i..j + 1][j - i] == s[j]
  {
  }

  ghost function Members<A>(s: seq<A>): set<A> {
    set x | x in s
  }

  ghost predicate Distinct<A>(s: seq<A>) {
    forall i, j :: 0 <= i < j < |s| ==> s[i] != s[j]
  }

  lemma {:induction false} DistinctCount<A>(s: seq<A>)
    requires Distinct(s)
    ensures |Members(s)| == |s|
  {
    if s != [] {
      var front, last := s[..|s| - 1], s[|s| - 1];
      DistinctCount(front);
      assert Members(s) == Members(front) + {last} by {
        assert s == front + [last];
      }
    }
  }

  ghost function Reversed<A>(s: seq<A>): seq<A> {
    seq(|s|, i requires 0 <= i < |s| => s[|s| - 1 - i])
  }

  lemma ReversedConcat<A>(a: seq<A>, b: seq<A>)
    ensures Reversed(a + b) == Reversed(b) + Reversed(a)
  {
  }

  lemma ReversedMember<A>(s: seq<A>, x: A)
    ensures x in Reversed(s) <==> x in s
  {
    if x in s {
      var i :| 0 <= i < |s| && s[i] == x;
      assert Reversed(s)[|s| - 1 - i] == x;
    }
  }
}
