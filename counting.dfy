/**
 * Both games decide "every entry is set" the same way: they keep the truthy
 * entries of an array and compare the length of what is left with the length
 * of the array (`grid.filter((t) => t).length === grid.length`,
 * `shownCards.filter(Boolean).length === cards.length`).  This module gives
 * that count once, with the facts both games need about it.
 */
module Counting {

  /** The length of `s.filter(keep)`. */
  function CountWhere<T>(s: seq<T>, keep: T -> bool): (n: nat)
    ensures n <= |s|
  {
    if s == [] then 0 else (if keep(s[0]) then 1 else 0) + CountWhere(s[1..], keep)
  }

  /** The filtered array is as long as the array exactly when nothing was dropped. */
  lemma {:induction false} CountWhereAll<T>(s: seq<T>, keep: T -> bool)
    ensures CountWhere(s, keep) == |s| <==> forall k :: 0 <= k < |s| ==> keep(s[k])
  {
    if s != [] {
      CountWhereAll(s[1..], keep);
      assert forall k :: 1 <= k < |s| ==> s[k] == s[1..][k - 1];
      if !keep(s[0]) {
        assert CountWhere(s, keep) <= |s[1..]|;
      }
    }
  }

  /** Overwriting one entry changes the count by what is lost and what is gained there. */
  lemma {:induction false} CountWhereUpdate<T>(s: seq<T>, k: nat, v: T, keep: T -> bool)
    requires k < |s|
    ensures CountWhere(s[k := v], keep)
         == CountWhere(s, keep) - (if keep(s[k]) then 1 else 0) + (if keep(v) then 1 else 0)
  {
    if k == 0 {
      assert s[k := v][1..] == s[1..];
    } else {
      CountWhereUpdate(s[1..], k - 1, v, keep);
      assert s[k := v][1..] == s[1..][k - 1 := v];
    }
  }

  /** An array none of whose entries is kept counts zero. */
  lemma {:induction false} CountWhereNone<T>(s: seq<T>, keep: T -> bool)
    requires forall k :: 0 <= k < |s| ==> !keep(s[k])
    ensures CountWhere(s, keep) == 0
  {
    if s != [] {
      assert forall k :: 1 <= k < |s| ==> s[k] == s[1..][k - 1];
      CountWhereNone(s[1..], keep);
    }
  }
}
