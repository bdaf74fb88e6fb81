/** The lobby's memory game (src/components/UI/FontMemoryGame.tsx): sixteen
    cards, two per font family, flipped two at a time. The two delayed
    callbacks that settle a pair are the explicit `Resolve` step; the
    shuffle's order is an argument. */
module MemoryGame {
  import opened Common

  /** A card; its random React key is left out. */
  datatype Card = Card(fontFamily: string, content: string, isFlipped: bool, isMatched: bool)

  /** The eight families of the deck. */
  const Fonts: seq<string> := [
    "Times New Roman", "Arial", "Courier New", "Georgia",
    "Verdana", "Impact", "Comic Sans MS", "Trebuchet MS"]

  /** The two face-down cards of one family. */
  function PairOf(family: string): seq<Card> {
    [Card(family, "Aa", false, false), Card(family, "gG", false, false)]
  }

  /** The `forEach` that pushes a pair per family, before the shuffle. */
  function Pairs(families: seq<string>): seq<Card>
    decreases |families|
  {
    if families == [] then [] else PairOf(families[0]) + Pairs(families[1..])
  }

  function InitialCards(): seq<Card> {
    Pairs(Fonts)
  }

  /** A card as dealt: face down, unmatched, showing `Aa` or `gG`. */
  predicate Dealt(c: Card, families: seq<string>) {
    c.fontFamily in families && (c.content == "Aa" || c.content == "gG")
    && !c.isFlipped && !c.isMatched
  }

  /** Each family of a duplicate-free list gives exactly one `Aa` card and
      one `gG` card, face down and unmatched, and nothing else is dealt. */
  lemma {:induction false} PairsDeal(families: seq<string>)
    requires NoDuplicates(families)
    ensures |Pairs(families)| == 2 * |families|
    ensures forall c :: multiset(Pairs(families))[c] == if Dealt(c, families) then 1 else 0
    decreases |families|
  {
    if families != [] {
      var rest := families[1..];
      assert NoDuplicates(rest);
      PairsDeal(rest);
      forall c ensures multiset(Pairs(families))[c] == if Dealt(c, families) then 1 else 0 {
        assert Pairs(families) == PairOf(families[0]) + Pairs(rest);
        assert c.fontFamily in families <==> c.fontFamily == families[0] || c.fontFamily in rest;
        assert families[0] !in rest;
      }
    }
  }

  lemma FontsAreDistinct()
    ensures NoDuplicates(Fonts)
  {
  }

  /** The deck: 16 cards, and each of the eight families once as `Aa` and
      once as `gG`, face down and unmatched. */
  lemma InitialDeck()
    ensures |InitialCards()| == 16
    ensures forall c :: multiset(InitialCards())[c] == if Dealt(c, Fonts) then 1 else 0
  {
    FontsAreDistinct();
    PairsDeal(Fonts);
  }

  /** Any order of the deck is 16 cards. */
  lemma ShuffledDeckSize(deck: seq<Card>)
    requires multiset(deck) == multiset(InitialCards())
    ensures |deck| == 16
  {
    InitialDeck();
    assert |deck| == |multiset(deck)|;
  }

  /** In any order of the deck every card is face down and unmatched. */
  lemma ShuffledDeck(deck: seq<Card>)
    requires multiset(deck) == multiset(InitialCards())
    ensures forall i :: 0 <= i < |deck| ==> !deck[i].isFlipped && !deck[i].isMatched
  {
    InitialDeck();
    forall i | 0 <= i < |deck| ensures !deck[i].isFlipped && !deck[i].isMatched {
      assert multiset(InitialCards())[deck[i]] > 0;
    }
  }

  /** The cards laid out in a fresh array, in the given order. */
  method Deal(deck: seq<Card>) returns (a: array<Card>)
    ensures fresh(a) && a[..] == deck
  {
    a := new Card[|deck|](i requires 0 <= i < |deck| => deck[i]);
    assert a[..] == deck;
  }

  /** What a completed click schedules for 500 ms (a match) or 1000 ms later. */
  datatype Outcome = MatchFound(first: nat, second: nat) | NoMatch(first: nat, second: nat)

  class Game {
    var cards: array<Card>
    var flippedIndices: seq<nat>
    var isLocked: bool

    /** The flipped list holds the distinct indices of the face-up unmatched
        cards, at most two; the board is locked exactly when it holds two;
        matched cards stay face up. */
    ghost predicate Valid()
      reads this, cards
    {
      |flippedIndices| <= 2
      && (isLocked <==> |flippedIndices| == 2)
      && (forall k :: 0 <= k < |flippedIndices| ==> flippedIndices[k] < cards.Length)
      && NoDuplicates(flippedIndices)
      && (forall i :: 0 <= i < cards.Length ==>
            (cards[i].isFlipped && !cards[i].isMatched <==> i in flippedIndices))
      && (forall i :: 0 <= i < cards.Length ==> cards[i].isMatched ==> cards[i].isFlipped)
    }

    /** The pair the pending callback settles. */
    function Pending(): Outcome
      reads this, cards
      requires Valid() && isLocked
    {
      var a, b := flippedIndices[0], flippedIndices[1];
      if cards[a].fontFamily == cards[b].fontFamily then MatchFound(a, b) else NoMatch(a, b)
    }

    /** The board after the initial effect: `deck` is the shuffled deck,
        whose cards `ShuffledDeck` shows to be face down and unmatched. */
    constructor(deck: seq<Card>)
      requires forall i :: 0 <= i < |deck| ==> !deck[i].isFlipped && !deck[i].isMatched
      ensures Valid() && fresh(cards) && !IsWon()
      ensures cards[..] == deck && flippedIndices == [] && !isLocked
    {
      var dealt := Deal(deck);
      cards := dealt;
      flippedIndices := [];
      isLocked := false;
      new;
      FaceDownBoardIsValid(this);
      if cards.Length > 0 {
        assert !cards[0].isMatched;
      }
    }

    /** `cards.length > 0 && cards.every(c => c.isMatched)`. */
    function IsWon(): bool
      reads this, cards
    {
      cards.Length > 0 && forall i :: 0 <= i < cards.Length ==> cards[i].isMatched
    }

    /** `handleCardClick(index)`: ignored while locked or on a face-up or
        matched card; otherwise the card turns face up and joins the flipped
        list, and a second card locks the board and schedules the outcome. */
    method HandleCardClick(index: nat) returns (scheduled: Option<Outcome>)
      requires Valid() && index < cards.Length
      modifies this, cards
      ensures Valid() && cards == old(cards)
      ensures old(isLocked || cards[index].isFlipped || cards[index].isMatched) ==>
        cards[..] == old(cards[..]) && flippedIndices == old(flippedIndices)
        && isLocked == old(isLocked) && scheduled.None?
      ensures !old(isLocked || cards[index].isFlipped || cards[index].isMatched) ==>
        cards[..] == old(cards[..])[index := old(cards[index]).(isFlipped := true)]
        && flippedIndices == old(flippedIndices) + [index]
        && isLocked == (|flippedIndices| == 2)
      ensures scheduled.Some? <==> old(!isLocked) && isLocked
      ensures scheduled.Some? ==> scheduled.value == Pending()
    {
      if isLocked || cards[index].isFlipped || cards[index].isMatched {
        return None;
      }
      cards[index] := cards[index].(isFlipped := true);
      flippedIndices := flippedIndices + [index];
      if |flippedIndices| == 2 {
        isLocked := true;
        var first, second := flippedIndices[0], flippedIndices[1];
        if cards[first].fontFamily == cards[second].fontFamily {
          scheduled := Some(MatchFound(first, second));
        } else {
          scheduled := Some(NoMatch(first, second));
        }
      } else {
        scheduled := None;
      }
    }

    /** The scheduled callback: a matching pair stays face up and becomes
        matched; a mismatched pair turns face down; only those two cards
        change, and the board clears its flipped list and unlocks. */
    method Resolve(outcome: Outcome)
      requires Valid() && isLocked && outcome == Pending()
      modifies this, cards
      ensures Valid() && cards == old(cards)
      ensures flippedIndices == [] && !isLocked
      ensures outcome.MatchFound? ==> cards[..] == old(cards[..])
        [outcome.first := old(cards[outcome.first]).(isMatched := true, isFlipped := true)]
        [outcome.second := old(cards[outcome.second]).(isMatched := true, isFlipped := true)]
      ensures outcome.NoMatch? ==> cards[..] == old(cards[..])
        [outcome.first := old(cards[outcome.first]).(isFlipped := false)]
        [outcome.second := old(cards[outcome.second]).(isFlipped := false)]
      ensures forall i :: 0 <= i < cards.Length && old(cards[i].isMatched) ==> cards[i].isMatched
      ensures forall i :: 0 <= i < cards.Length && i != outcome.first && i != outcome.second ==>
        cards[i] == old(cards[i])
    {
      var first, second := outcome.first, outcome.second;
      match outcome {
        case MatchFound(_, _) =>
          cards[first] := cards[first].(isMatched := true, isFlipped := true);
          cards[second] := cards[second].(isMatched := true, isFlipped := true);
        case NoMatch(_, _) =>
          cards[first] := cards[first].(isFlipped := false);
          cards[second] := cards[second].(isFlipped := false);
      }
      flippedIndices := [];
      isLocked := false;
    }
  }

  /** A won board has no pair waiting: every card is matched, and matched
      cards are never in the flipped list, so it is empty and unlocked;
      every further click is ignored. */
  lemma WonBoardIsSettled(g: Game)
    requires g.Valid() && g.IsWon()
    ensures g.flippedIndices == [] && !g.isLocked
  {
    if |g.flippedIndices| > 0 {
      PendingMeansNotWon(g);
    }
  }

  /** A face-up unmatched card means the game is not won yet. */
  lemma PendingMeansNotWon(g: Game)
    requires g.Valid() && |g.flippedIndices| > 0
    ensures !g.IsWon()
  {
    FlippedAreUnmatched(g);
    assert !g.cards[g.flippedIndices[0]].isMatched;
  }

  /** The cards in the flipped list are the face-up unmatched ones. */
  lemma FlippedAreUnmatched(g: Game)
    requires g.Valid()
    ensures forall k :: 0 <= k < |g.flippedIndices| ==>
      g.cards[g.flippedIndices[k]].isFlipped && !g.cards[g.flippedIndices[k]].isMatched
  {
    forall k | 0 <= k < |g.flippedIndices|
      ensures g.cards[g.flippedIndices[k]].isFlipped && !g.cards[g.flippedIndices[k]].isMatched
    {
      assert g.flippedIndices[k] in g.flippedIndices;
    }
  }

  /** A board of face-down, unmatched cards with nothing flipped is valid. */
  lemma FaceDownBoardIsValid(g: Game)
    requires g.flippedIndices == [] && !g.isLocked
    requires forall i :: 0 <= i < g.cards.Length ==> !g.cards[i].isFlipped && !g.cards[i].isMatched
    ensures g.Valid()
  {
  }
}
