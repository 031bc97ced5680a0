/** Ascending index lists. */
module Sorted {
  ghost predicate Ascending(s: seq<nat>) { forall i, j :: 0 <= i <= j < |s| ==> s[i] <= s[j] }

  ghost predicate StrictlyAscending(s: seq<nat>) { forall i, j :: 0 <= i < j < |s| ==> s[i] < s[j] }

  lemma {:induction false} AppendAscending(s: seq<nat>, r: nat)
    requires Ascending(s)
    requires forall x :: x in s ==> x <= r
    ensures Ascending(s + [r])
    ensures forall x :: x in s + [r] <==> x in s || x == r
  {
    assert forall k :: 0 <= k < |s| ==> s[k] in s;
  }

  lemma {:induction false} AppendStrictly(s: seq<nat>, r: nat)
    requires StrictlyAscending(s)
    requires forall x :: x in s ==> x < r
    ensures StrictlyAscending(s + [r])
    ensures forall x :: x in s + [r] <==> x in s || x == r
  {
    assert forall k :: 0 <= k < |s| ==> s[k] in s;
  }

  lemma {:induction false} WithoutLast(s: seq<nat>, x: nat)
    requires s != [] && StrictlyAscending(s)
    ensures x in s[..|s| - 1] <==> x in s && x < s[|s| - 1]
  {
    assert s == s[..|s| - 1] + [s[|s| - 1]];
  }

  /** The members determine a strictly ascending list. */
  lemma {:induction false} AscendingUnique(s: seq<nat>, t: seq<nat>)
    requires StrictlyAscending(s) && StrictlyAscending(t)
    requires forall x :: x in s <==> x in t
    ensures s == t
  {
    if s == [] {
      if t != [] {
        FirstIsMember(t);
      }
    } else if t == [] {
      FirstIsMember(s);
    } else {
      var m, n := |s| - 1, |t| - 1;
      assert s[m] in s && t[n] in t;
      assert s[m] == t[n];
      forall x: nat ensures x in s[..m] <==> x in t[..n] {
        WithoutLast(s, x);
        WithoutLast(t, x);
      }
      AscendingUnique(s[..m], t[..n]);
      assert s == s[..m] + [s[m]];
      assert t == t[..n] + [t[n]];
    }
  }

  lemma {:induction false} FirstIsMember(s: seq<nat>)
    requires s != []
    ensures s[0] in s
  {
  }
}
