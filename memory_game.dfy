/**
 * The state machine of the memory game in src/MemoryGame.tsx: the deck
 * `cards`, the face-up view `shownCards` ("" for a face-down card) and the
 * index `latest` of the card waiting for a partner (-1 for none).
 *
 * A click on a face-down card flips it at once and schedules a callback that
 * runs 300 ms later.  The callback is a closure over the state as it was
 * rendered when the card was clicked, so it sees that click's `cards`,
 * `shownCards` and `latest`, not the current ones.  `Click` returns that
 * capture as a `Pending` value and `Resolve` runs the callback on it, so
 * every order of clicks and callbacks can be written as a sequence of calls.
 * `ClickAndSettle` is the schedule in which the callback fires before the
 * next click.
 */
module MemoryGame {
  import opened Counting
  import opened Deal

  /** `N_CARDS`: the number of distinct symbols dealt. */
  const NCards: nat := 4

  /** The face-down entry of `shownCards`. */
  const Hidden: Emoji := ""

  /** An emoji string is truthy exactly when it is not empty. */
  predicate IsShown(e: Emoji) {
    e != Hidden
  }

  /** `a && b && a === b`, read as a condition. */
  function CheckIfMatch(a: Emoji, b: Emoji): (r: bool)
    ensures r <==> IsShown(a) && a == b
  {
    if !IsShown(a) then false
    else if !IsShown(b) then false
    else a == b
  }

  /** `Array(n).fill("")`. */
  function AllHidden(n: nat): (s: seq<Emoji>)
    ensures |s| == n && forall k :: 0 <= k < n ==> !IsShown(s[k])
  {
    seq(n, _ => Hidden)
  }

  datatype Option<T> = None | Some(value: T)

  /** A scheduled timer callback: the clicked index and what its closure captured. */
  datatype Pending = Pending(index: nat, cards: seq<Emoji>, shownCards: seq<Emoji>, latest: int)

  /** A capture taken from a well-formed game. */
  predicate PendingOk(p: Pending) {
    && |p.cards| == 2 * NCards
    && |p.shownCards| == 2 * NCards
    && p.index < 2 * NCards
    && -1 <= p.latest < 2 * NCards
  }

  class Game {
    var cards: seq<Emoji>
    var shownCards: seq<Emoji>
    var latest: int

    ghost predicate Valid()
      reads this
    {
      |cards| == 2 * NCards && |shownCards| == 2 * NCards && -1 <= latest < 2 * NCards
    }

    /**
     * The invariant of play in which every callback fires before the next
     * click: each face-up entry shows its own card, and the waiting card,
     * if any, is turned up.
     */
    ghost predicate Settled()
      reads this
    {
      && Valid()
      && (forall k :: 0 <= k < |shownCards| ==> shownCards[k] == Hidden || shownCards[k] == cards[k])
      && (latest != -1 ==> shownCards[latest] == cards[latest])
    }

    /** The initial state of the component: a fresh deal, all cards face down, none waiting. */
    constructor (emojis: seq<Emoji>, picks: seq<nat>)
      requires |emojis| == NCards && ValidPicks(picks, 2 * NCards)
      ensures Valid() && Settled()
      ensures cards == Shuffled(Doubled(emojis), picks)
      ensures multiset(cards) == multiset(emojis) + multiset(emojis)
      ensures shownCards == AllHidden(2 * NCards) && latest == -1
    {
      var deck := GenerateGame(emojis, picks);
      cards := deck[..];
      shownCards := AllHidden(2 * NCards);
      latest := -1;
    }

    /** `resetGame`: a fresh deal, all cards face down, none waiting. */
    method Reset(emojis: seq<Emoji>, picks: seq<nat>)
      requires |emojis| == NCards && ValidPicks(picks, 2 * NCards)
      modifies this
      ensures Valid() && Settled()
      ensures cards == Shuffled(Doubled(emojis), picks)
      ensures multiset(cards) == multiset(emojis) + multiset(emojis)
      ensures shownCards == AllHidden(2 * NCards) && latest == -1
    {
      var deck := GenerateGame(emojis, picks);
      cards := deck[..];
      shownCards := AllHidden(2 * NCards);
      latest := -1;
    }

    /**
     * The synchronous part of `handleClick(i)`.  A face-up card is left
     * alone and nothing is scheduled; a face-down card is flipped and the
     * callback is scheduled with the state before the flip.
     */
    method Click(i: nat) returns (scheduled: Option<Pending>)
      requires Valid() && i < |cards|
      modifies this
      ensures Valid() && cards == old(cards) && latest == old(latest)
      ensures IsShown(old(shownCards)[i]) ==> scheduled == None && shownCards == old(shownCards)
      ensures !IsShown(old(shownCards)[i]) ==>
        && shownCards == old(shownCards)[i := cards[i]]
        && scheduled == Some(Pending(i, cards, old(shownCards), latest))
      ensures scheduled.Some? ==> PendingOk(scheduled.value)
    {
      if !IsShown(shownCards[i]) {
        scheduled := Some(Pending(i, cards, shownCards, latest));
        shownCards := shownCards[i := cards[i]];
      } else {
        scheduled := None;
      }
    }

    /**
     * The timer callback of `handleClick`, run on what its closure captured.
     * With no card waiting, the clicked card becomes the waiting one.  With
     * one waiting and no match, `shownCards` becomes the captured view with
     * both cards face down; with a match it is left as it is.  Either way
     * no card is waiting afterwards.
     */
    method Resolve(p: Pending)
      requires Valid() && PendingOk(p)
      modifies this
      ensures Valid() && cards == old(cards)
      ensures p.latest == -1 ==> latest == p.index && shownCards == old(shownCards)
      ensures p.latest != -1 && !CheckIfMatch(p.cards[p.index], p.cards[p.latest]) ==>
        latest == -1 && shownCards == p.shownCards[p.index := Hidden][p.latest := Hidden]
      ensures p.latest != -1 && CheckIfMatch(p.cards[p.index], p.cards[p.latest]) ==>
        latest == -1 && shownCards == old(shownCards)
    {
      if p.latest != -1 {
        if !CheckIfMatch(p.cards[p.index], p.cards[p.latest]) {
          var copy := p.shownCards;
          copy := copy[p.index := Hidden];
          copy := copy[p.latest := Hidden];
          shownCards := copy;
        }
        latest := -1;
      } else {
        latest := p.index;
      }
    }

    /**
     * A click whose callback fires before anything else happens.  A second
     * card that does not match the waiting one leaves both face down; one
     * that matches leaves both face up; a card already face up stays so.
     */
    method ClickAndSettle(i: nat)
      requires Valid() && i < |cards|
      modifies this
      ensures Valid() && cards == old(cards)
      ensures old(Settled()) ==> Settled()
      ensures IsShown(old(shownCards)[i]) ==> shownCards == old(shownCards) && latest == old(latest)
      ensures !IsShown(old(shownCards)[i]) && old(latest) == -1 ==>
        shownCards == old(shownCards)[i := cards[i]] && latest == i
      ensures !IsShown(old(shownCards)[i]) && old(latest) != -1 && CheckIfMatch(cards[i], cards[old(latest)]) ==>
        shownCards == old(shownCards)[i := cards[i]] && latest == -1
      ensures !IsShown(old(shownCards)[i]) && old(latest) != -1 && !CheckIfMatch(cards[i], cards[old(latest)]) ==>
        shownCards == old(shownCards)[old(latest) := Hidden] && latest == -1
      ensures forall k :: 0 <= k < |shownCards| && k != old(latest) && IsShown(old(shownCards)[k]) ==>
        shownCards[k] == old(shownCards)[k]
    {
      var scheduled := Click(i);
      if scheduled.Some? {
        Resolve(scheduled.value);
      }
    }

    /** The win test: as many face-up entries as cards. */
    function IsWon(): (r: bool)
      reads this
      ensures |shownCards| == |cards| ==>
        (r <==> forall k :: 0 <= k < |shownCards| ==> IsShown(shownCards[k]))
    {
      CountWhereAll(shownCards, IsShown);
      CountWhere(shownCards, IsShown) == |cards|
    }
  }

  /**
   * A fresh game whose first two cards hold the same symbol: clicking both,
   * each callback firing before the next click, leaves both face up, and
   * the game is not yet won, since six of its eight cards are still face down.
   */
  method FirstPairMatches(emojis: seq<Emoji>, picks: seq<nat>) returns (bothUp: bool, won: bool)
    requires |emojis| == NCards && ValidPicks(picks, 2 * NCards)
    requires Shuffled(Doubled(emojis), picks)[0] == Shuffled(Doubled(emojis), picks)[1]
    requires IsShown(Shuffled(Doubled(emojis), picks)[0])
    ensures bothUp && !won
  {
    var game := new Game(emojis, picks);
    game.ClickAndSettle(0);
    game.ClickAndSettle(1);
    bothUp := IsShown(game.shownCards[0]) && IsShown(game.shownCards[1]);
    assert !IsShown(game.shownCards[2]);
    won := game.IsWon();
  }
}
