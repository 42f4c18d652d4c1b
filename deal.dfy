/**
 * Dealing the memory game's deck (src/MemoryGame.tsx): `shuffleArray`, an
 * in-place Fisher-Yates shuffle, and `generateGame`, which doubles every
 * symbol and shuffles the result.
 *
 * The shuffle draws `j = Math.floor(Math.random() * (i + 1))` at each step
 * `i`; here the draws are a parameter `picks`, with `picks[i]` the `j` drawn
 * at step `i`, so `0 <= picks[i] <= i`.  The symbols that `generateGame`
 * asks an emoji library for are a parameter too.
 */
module Deal {

  /** A card face: an emoji string. */
  type Emoji = string

  /** `temp = a[i]; a[i] = a[j]; a[j] = temp` on a value. */
  function Swap<T>(s: seq<T>, i: nat, j: nat): (r: seq<T>)
    requires i < |s| && j < |s|
    ensures |r| == |s| && r[i] == s[j] && r[j] == s[i]
    ensures forall k :: 0 <= k < |s| && k != i && k != j ==> r[k] == s[k]
  {
    s[i := s[j]][j := s[i]]
  }

  /** Draws for an array of length `n`: one per index, each at most its index. */
  predicate ValidPicks(picks: seq<nat>, n: nat) {
    |picks| == n && forall i :: 0 <= i < n ==> picks[i] <= i
  }

  /** The loop steps `i, i - 1, ..., 1` applied to `s`. */
  function ShuffleFrom<T>(s: seq<T>, picks: seq<nat>, i: int): (r: seq<T>)
    requires ValidPicks(picks, |s|) && i < |s|
    ensures |r| == |s|
    decreases i
  {
    if i <= 0 then s else ShuffleFrom(Swap(s, i, picks[i]), picks, i - 1)
  }

  /** What `shuffleArray` leaves in the array: all steps, from the last index down to 1. */
  function Shuffled<T>(s: seq<T>, picks: seq<nat>): (r: seq<T>)
    requires ValidPicks(picks, |s|)
  {
    ShuffleFrom(s, picks, |s| - 1)
  }

  lemma {:induction false} ShuffleFromPermutes<T>(s: seq<T>, picks: seq<nat>, i: int)
    requires ValidPicks(picks, |s|) && i < |s|
    ensures multiset(ShuffleFrom(s, picks, i)) == multiset(s)
    decreases i
  {
    if i > 0 {
      ShuffleFromPermutes(Swap(s, i, picks[i]), picks, i - 1);
    }
  }

  /** The steps from `i` down touch no position above `i`. */
  lemma {:induction false} ShuffleFromKeepsAbove<T>(s: seq<T>, picks: seq<nat>, i: int)
    requires ValidPicks(picks, |s|) && i < |s|
    ensures forall k :: 0 <= k < |s| && i < k ==> ShuffleFrom(s, picks, i)[k] == s[k]
    decreases i
  {
    if i > 0 {
      ShuffleFromKeepsAbove(Swap(s, i, picks[i]), picks, i - 1);
    }
  }

  /** Whatever the draws, the shuffle is a permutation of its input. */
  lemma ShuffledIsPermutation<T>(s: seq<T>, picks: seq<nat>)
    requires ValidPicks(picks, |s|)
    ensures |Shuffled(s, picks)| == |s|
    ensures multiset(Shuffled(s, picks)) == multiset(s)
  {
    ShuffleFromPermutes(s, picks, |s| - 1);
  }

  /** `shuffleArray`: the array is shuffled in place and returned. */
  method ShuffleArray<T>(a: array<T>, picks: seq<nat>) returns (r: array<T>)
    requires ValidPicks(picks, a.Length)
    modifies a
    ensures r == a
    ensures a[..] == Shuffled(old(a[..]), picks)
    ensures multiset(a[..]) == multiset(old(a[..]))
  {
    ghost var goal := Shuffled(a[..], picks);
    ShuffledIsPermutation(a[..], picks);
    var i := a.Length - 1;
    while i > 0
      invariant -1 <= i < a.Length
      invariant ShuffleFrom(a[..], picks, i) == goal
      invariant forall k :: i < k < a.Length ==> a[k] == goal[k]
    {
      var j := picks[i];
      ghost var before := a[..];
      var temp := a[i];
      a[i] := a[j];
      a[j] := temp;
      assert a[..] == Swap(before, i, j);
      ShuffleFromKeepsAbove(a[..], picks, i - 1);
      i := i - 1;
    }
    return a;
  }

  /** `emojis.map((c) => [c, c]).flat()`: every symbol twice, side by side. */
  function Doubled<S>(symbols: seq<S>): (r: seq<S>)
    ensures |r| == 2 * |symbols|
    ensures forall k :: 0 <= k < |symbols| ==> r[2 * k] == symbols[k] && r[2 * k + 1] == symbols[k]
  {
    if symbols == [] then [] else [symbols[0], symbols[0]] + Doubled(symbols[1..])
  }

  /** Each symbol occurs twice as often in the doubled list as in the input. */
  lemma {:induction false} DoubledCounts<S>(symbols: seq<S>)
    ensures multiset(Doubled(symbols)) == multiset(symbols) + multiset(symbols)
  {
    if symbols != [] {
      DoubledCounts(symbols[1..]);
      assert symbols == [symbols[0]] + symbols[1..];
    }
  }

  predicate Distinct<S(==)>(symbols: seq<S>) {
    forall i, j :: 0 <= i < j < |symbols| ==> symbols[i] != symbols[j]
  }

  /** In a list without repeats, every member occurs once. */
  lemma {:induction false} DistinctOccursOnce<S>(symbols: seq<S>, x: S)
    requires Distinct(symbols)
    ensures multiset(symbols)[x] == if x in symbols then 1 else 0
  {
    if symbols != [] {
      assert symbols == [symbols[0]] + symbols[1..];
      assert Distinct(symbols[1..]) by {
        forall i, j | 0 <= i < j < |symbols| - 1
          ensures symbols[1..][i] != symbols[1..][j]
        {
          assert symbols[1..][i] == symbols[i + 1] && symbols[1..][j] == symbols[j + 1];
        }
      }
      DistinctOccursOnce(symbols[1..], x);
      if x == symbols[0] {
        assert x !in symbols[1..] by {
          forall k | 0 <= k < |symbols| - 1
            ensures symbols[1..][k] != x
          {
            assert symbols[1..][k] == symbols[k + 1];
          }
        }
      }
    }
  }

  /** From pairwise-distinct symbols, every symbol lands on exactly two cards,
      before and after the shuffle, and nothing else does. */
  lemma EachSymbolTwice<S>(symbols: seq<S>, picks: seq<nat>, x: S)
    requires Distinct(symbols) && ValidPicks(picks, 2 * |symbols|)
    ensures |Doubled(symbols)| == 2 * |symbols|
    ensures multiset(Doubled(symbols))[x] == if x in symbols then 2 else 0
    ensures multiset(Shuffled(Doubled(symbols), picks))[x] == if x in symbols then 2 else 0
  {
    DoubledCounts(symbols);
    DistinctOccursOnce(symbols, x);
    ShuffledIsPermutation(Doubled(symbols), picks);
  }

  /** The pairing and shuffling of `generateGame`, for the symbols the library supplied. */
  method GenerateGame(emojis: seq<Emoji>, picks: seq<nat>) returns (deck: array<Emoji>)
    requires ValidPicks(picks, 2 * |emojis|)
    ensures fresh(deck)
    ensures deck[..] == Shuffled(Doubled(emojis), picks)
    ensures multiset(deck[..]) == multiset(emojis) + multiset(emojis)
  {
    var doubled := Doubled(emojis);
    deck := new Emoji[|doubled|](k requires 0 <= k < |doubled| => doubled[k]);
    assert deck[..] == doubled;
    deck := ShuffleArray(deck, picks);
    DoubledCounts(emojis);
  }
}
