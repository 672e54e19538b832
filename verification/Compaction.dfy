/** std::remove_if followed by erase, with which both reactors drop retired entries: what it leaves, and where. */
module Compaction {
  /** The elements that satisfy `keep`, in their order. */
  function Kept<T>(s: seq<T>, keep: T -> bool): seq<T> {
    if s == [] then []
    else
      var rest := Kept(s[..|s| - 1], keep);
      if keep(s[|s| - 1]) then rest + [s[|s| - 1]] else rest
  }

  /** The number of kept elements before position i: where the element at i ends up. */
  function Rank<T>(s: seq<T>, keep: T -> bool, i: nat): nat
    requires i <= |s|
  {
    |Kept(s[..i], keep)|
  }

  /** Moves the kept elements down in place, then cuts off the rest. */
  method RemoveIf<T>(s: seq<T>, keep: T -> bool) returns (r: seq<T>)
    ensures r == Kept(s, keep)
  {
    r := s;
    var result, i := 0, 0;
    while i < |r|
      invariant 0 <= result <= i <= |r| == |s|
      invariant r[..result] == Kept(s[..i], keep) && r[i..] == s[i..]
    {
      assert r[i] == s[i] && s[..i + 1][..i] == s[..i];
      if keep(r[i]) {
        r := r[result := r[i]];
        result := result + 1;
      }
      i := i + 1;
    }
    assert s[..|s|] == s;
    r := r[..result];
  }

  lemma {:induction false} KeptMembers<T>(s: seq<T>, keep: T -> bool, e: T)
    ensures e in Kept(s, keep) <==> e in s && keep(e)
  {
    if s != [] {
      KeptMembers(s[..|s| - 1], keep, e);
      assert s == s[..|s| - 1] + [s[|s| - 1]];
    }
  }

  /** Something is dropped exactly if something is not to be kept. */
  lemma {:induction false} KeptIsShorter<T>(s: seq<T>, keep: T -> bool)
    ensures |Kept(s, keep)| <= |s|
    ensures |Kept(s, keep)| < |s| <==> exists e <- s :: !keep(e)
  {
    if s != [] {
      KeptIsShorter(s[..|s| - 1], keep);
      assert s == s[..|s| - 1] + [s[|s| - 1]];
    }
  }

  lemma {:induction false} KeptAll<T>(s: seq<T>, keep: T -> bool)
    requires forall e <- s :: keep(e)
    ensures Kept(s, keep) == s
  {
    if s != [] {
      assert s == s[..|s| - 1] + [s[|s| - 1]];
      KeptAll(s[..|s| - 1], keep);
    }
  }

  /** What is kept of a prefix comes first. */
  lemma {:induction false} KeptPrefix<T>(s: seq<T>, keep: T -> bool, i: nat)
    requires i <= |s|
    ensures Kept(s[..i], keep) <= Kept(s, keep)
    decreases |s|
  {
    if i < |s| {
      KeptPrefix(s[..|s| - 1], keep, i);
      assert s[..|s| - 1][..i] == s[..i];
    } else {
      assert s[..i] == s;
    }
  }

  /** A kept element ends up at its rank. */
  lemma KeptAt<T>(s: seq<T>, keep: T -> bool, i: nat)
    requires i < |s| && keep(s[i])
    ensures Rank(s, keep, i) < |Kept(s, keep)| && Kept(s, keep)[Rank(s, keep, i)] == s[i]
  {
    assert s[..i + 1][..i] == s[..i];
    KeptPrefix(s, keep, i + 1);
  }

  /** Ranks are in the order of the positions. */
  lemma RankGrows<T>(s: seq<T>, keep: T -> bool, i: nat, j: nat)
    requires i < j <= |s|
    ensures Rank(s, keep, i) <= Rank(s, keep, j) && (keep(s[i]) ==> Rank(s, keep, i) < Rank(s, keep, j))
  {
    assert s[..j][..i] == s[..i] && s[..j][..i + 1] == s[..i + 1] && s[..i + 1][..i] == s[..i];
    KeptPrefix(s[..j], keep, i);
    KeptPrefix(s[..j], keep, i + 1);
  }

  /** Every element left was at exactly one rank before. */
  lemma {:induction false} KeptOrigin<T>(s: seq<T>, keep: T -> bool, k: nat) returns (i: nat)
    requires k < |Kept(s, keep)|
    ensures i < |s| && keep(s[i]) && Rank(s, keep, i) == k && Kept(s, keep)[k] == s[i]
  {
    var n := |s| - 1;
    if k < |Kept(s[..n], keep)| {
      i := KeptOrigin(s[..n], keep, k);
      assert s[..n][..i] == s[..i];
    } else {
      i := n;
    }
  }

  /** What is kept, seen from the front. */
  lemma {:induction false} KeptFirst<T>(s: seq<T>, keep: T -> bool)
    requires s != []
    ensures Kept(s, keep) == (if keep(s[0]) then [s[0]] else []) + Kept(s[1..], keep)
    decreases |s|
  {
    var n := |s| - 1;
    if n == 0 {
      assert s[..0] == [] && s[1..] == [];
    } else {
      KeptFirst(s[..n], keep);
      assert s[..n][1..] == s[1..][..n - 1];
    }
  }
}
