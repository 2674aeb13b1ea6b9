/** Sums of a measure over a sequence, and how one changed entry moves them. */
module Totals {

  function Total<T>(s: seq<T>, f: T -> nat): nat {
    if s == [] then 0 else Total(s[..|s| - 1], f) + f(s[|s| - 1])
  }

  lemma {:induction false} TotalUpdate<T>(s: seq<T>, f: T -> nat, i: nat, x: T)
    requires i < |s|
    ensures Total(s[i := x], f) == Total(s, f) - f(s[i]) + f(x)
    decreases |s|
  {
    var init := s[..|s| - 1];
    if i < |init| {
      TotalUpdate(init, f, i, x);
      assert s[i := x][..|s| - 1] == init[i := x];
    } else {
      assert s[i := x][..|s| - 1] == init;
    }
  }

  lemma TotalAppend<T>(s: seq<T>, f: T -> nat, x: T)
    ensures Total(s + [x], f) == Total(s, f) + f(x)
  {
    assert (s + [x])[..|s|] == s;
  }

  lemma {:induction false} TotalHolds<T>(s: seq<T>, f: T -> nat, i: nat)
    requires i < |s|
    ensures f(s[i]) <= Total(s, f)
    decreases |s|
  {
    if i < |s| - 1 { TotalHolds(s[..|s| - 1], f, i); }
  }

  /** A sum that exceeds another, entry by entry the same measure or less, shows
    * an entry where it is larger.
    */
  lemma {:induction false} TotalExceeds<T>(s: seq<T>, f: T -> nat, g: T -> nat) returns (i: nat)
    requires Total(s, f) > Total(s, g)
    ensures i < |s| && f(s[i]) > g(s[i])
    decreases |s|
  {
    if f(s[|s| - 1]) > g(s[|s| - 1]) {
      i := |s| - 1;
    } else {
      i := TotalExceeds(s[..|s| - 1], f, g);
    }
  }

  lemma {:induction false} TotalBelow<T>(s: seq<T>, f: T -> nat, g: T -> nat)
    requires forall i :: 0 <= i < |s| ==> f(s[i]) <= g(s[i])
    ensures Total(s, f) <= Total(s, g)
    decreases |s|
  {
    if s != [] {
      var init := s[..|s| - 1];
      forall i | 0 <= i < |init| ensures f(init[i]) <= g(init[i]) { assert init[i] == s[i]; }
      TotalBelow(init, f, g);
    }
  }
}
