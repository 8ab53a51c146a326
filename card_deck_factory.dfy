/** Building the standard deck: one card per suit and rank, numbered in shuffled order. */
module CardDeckFactory {

  import opened CardNumberExtensions
  import opened CardSuitExtensions
  import opened Cards

  /** A deck owns its own copy of the card list it was built from. */
  datatype Deck = Deck(cards: seq<Card>)

  /** The number of cards in a standard deck: one per suit and rank. */
  const StandardDeckSize: nat := 52

  /** `order` lists n positions, each one of 0 .. n-1. */
  ghost predicate Positions(order: seq<nat>, n: nat)
  {
    |order| == n && forall k :: 0 <= k < n ==> order[k] < n
  }

  /** `order` lists every position 0 .. n-1 exactly once: a shuffle of n items. */
  ghost predicate IsPermutation(order: seq<nat>, n: nat)
  {
    && Positions(order, n)
    && (forall j, k :: 0 <= j < k < n ==> order[j] != order[k])
    && (forall i :: 0 <= i < n ==> i in order)
  }

  /** The card the construction loops create at position i: suit-major, so all the
      ranks of the first suit come first, then those of the next suit. */
  function StandardCard(i: nat): (c: Card)
    requires i < StandardDeckSize
    ensures c.id == UnassignedId
    ensures i == SuitIndex(c.suit) * 13 + Ordinal(c.number) - 1
  {
    AllSuitsListsEverySuitOnce();
    AllNumbersListsEveryRankOnce();
    NewCard(AllNumbers[i % 13], AllSuits[i / 13])
  }

  /** Every (suit, rank) pair occurs at exactly one position of the construction order. */
  lemma StandardOrderHasEveryCardOnce()
    ensures StandardDeckSize == |AllSuits| * |AllNumbers|
    ensures forall i, j :: 0 <= i < j < StandardDeckSize ==>
      (StandardCard(i).suit, StandardCard(i).number) != (StandardCard(j).suit, StandardCard(j).number)
    ensures forall suit: CardSuit, number: CardNumber ::
      var i := SuitIndex(suit) * 13 + Ordinal(number) - 1;
      0 <= i < StandardDeckSize && StandardCard(i).suit == suit && StandardCard(i).number == number
  {
    AllSuitsListsEverySuitOnce();
    AllNumbersListsEveryRankOnce();
    forall i, j | 0 <= i < j < StandardDeckSize
      ensures (StandardCard(i).suit, StandardCard(i).number) != (StandardCard(j).suit, StandardCard(j).number)
    {
      if i / 13 == j / 13 {
        assert i % 13 != j % 13;
        assert AllNumbers[i % 13] != AllNumbers[j % 13];
      } else {
        assert AllSuits[i / 13] != AllSuits[j / 13];
      }
    }
    forall suit: CardSuit, number: CardNumber
      ensures var i := SuitIndex(suit) * 13 + Ordinal(number) - 1;
        0 <= i < StandardDeckSize && StandardCard(i).suit == suit && StandardCard(i).number == number
    {
      var i := SuitIndex(suit) * 13 + Ordinal(number) - 1;
      assert i / 13 == SuitIndex(suit) && i % 13 == Ordinal(number) - 1;
      assert AllNumbers[Ordinal(number) - 1] == number;
    }
  }

  /** Numbering the cards in shuffled order hands out each id 0 .. n-1 exactly once. */
  lemma ShuffledIdsArePermutation(cards: seq<Card>, shuffle: seq<nat>)
    requires IsPermutation(shuffle, |cards|)
    requires forall k :: 0 <= k < |shuffle| ==> cards[shuffle[k]].id == k
    ensures forall i :: 0 <= i < |cards| ==> 0 <= cards[i].id < |cards| && shuffle[cards[i].id] == i
    ensures forall i, j :: 0 <= i < j < |cards| ==> cards[i].id != cards[j].id
  {
    forall i | 0 <= i < |cards|
      ensures 0 <= cards[i].id < |cards| && shuffle[cards[i].id] == i
    {
      assert i in shuffle;
      var k :| 0 <= k < |shuffle| && shuffle[k] == i;
      assert cards[shuffle[k]].id == k;
    }
  }

  /** Builds the standard deck. The construction loops append one new card per suit
      and rank; `shuffle` is the order the shuffled view enumerates them in, and the
      k-th card of that view is given id k. */
  method CreateStandardDeck(shuffle: seq<nat>) returns (deck: Deck)
    requires IsPermutation(shuffle, StandardDeckSize)
    ensures |deck.cards| == StandardDeckSize
    ensures forall i :: 0 <= i < |deck.cards| ==>
      deck.cards[i].number == StandardCard(i).number && deck.cards[i].suit == StandardCard(i).suit
    ensures forall k :: 0 <= k < |shuffle| ==> deck.cards[shuffle[k]].id == k
    ensures forall i :: 0 <= i < |deck.cards| ==> 0 <= deck.cards[i].id < |deck.cards|
    ensures forall i, j :: 0 <= i < j < |deck.cards| ==> deck.cards[i].id != deck.cards[j].id
  {
    AllSuitsListsEverySuitOnce();
    AllNumbersListsEveryRankOnce();
    var cards: seq<Card> := [];
    for s := 0 to |AllSuits|
      invariant |cards| == s * |AllNumbers|
      invariant forall i :: 0 <= i < |cards| ==> cards[i] == StandardCard(i)
    {
      for n := 0 to |AllNumbers|
        invariant |cards| == s * |AllNumbers| + n
        invariant forall i :: 0 <= i < |cards| ==> cards[i] == StandardCard(i)
      {
        cards := cards + [NewCard(AllNumbers[n], AllSuits[s])];
      }
    }

    // The shuffled view holds the same card objects, so numbering a card through it
    // changes the card in `cards` at the position the view took it from.
    var id := 0;
    while id < |shuffle|
      invariant 0 <= id <= |shuffle| && |cards| == StandardDeckSize
      invariant forall i :: 0 <= i < |cards| ==>
        cards[i].number == StandardCard(i).number && cards[i].suit == StandardCard(i).suit
      invariant forall k :: 0 <= k < id ==> cards[shuffle[k]].id == k
    {
      cards := cards[shuffle[id] := cards[shuffle[id]].(id := id)];
      id := id + 1;
    }
    ShuffledIdsArePermutation(cards, shuffle);
    deck := Deck(cards);
  }

  /** The deck's cards enumerated in the order a shuffle of their positions gives. */
  function ShuffledCards(deck: Deck, order: seq<nat>): (r: seq<Card>)
    requires Positions(order, |deck.cards|)
    ensures |r| == |deck.cards|
    ensures forall k :: 0 <= k < |r| ==> r[k] == deck.cards[order[k]]
  {
    Pick(deck.cards, order)
  }

  /** The cards at the given positions, in the order the positions are listed. */
  function Pick(cards: seq<Card>, order: seq<nat>): (r: seq<Card>)
    requires forall k :: 0 <= k < |order| ==> order[k] < |cards|
    ensures |r| == |order|
    ensures forall k :: 0 <= k < |order| ==> r[k] == cards[order[k]]
  {
    if order == [] then []
    else Pick(cards, order[..|order| - 1]) + [cards[order[|order| - 1]]]
  }

  /** In a sequence without repeats every element occurs once. */
  lemma {:induction false} DistinctCounts(s: seq<Card>)
    requires forall i, j :: 0 <= i < j < |s| ==> s[i] != s[j]
    ensures forall c :: multiset(s)[c] == if c in s then 1 else 0
  {
    if s != [] {
      var init := s[..|s| - 1];
      assert s == init + [s[|s| - 1]];
      DistinctCounts(init);
      assert s[|s| - 1] !in init;
    }
  }

  /** A shuffled view of a deck of distinct cards holds exactly the deck's cards. */
  lemma ShuffledCardsAreTheDeck(deck: Deck, order: seq<nat>)
    requires IsPermutation(order, |deck.cards|)
    requires forall i, j :: 0 <= i < j < |deck.cards| ==> deck.cards[i] != deck.cards[j]
    ensures multiset(ShuffledCards(deck, order)) == multiset(deck.cards)
  {
    var shuffled := ShuffledCards(deck, order);
    DistinctCounts(deck.cards);
    DistinctCounts(shuffled);
    forall c ensures c in shuffled <==> c in deck.cards {
      if c in deck.cards {
        var i :| 0 <= i < |deck.cards| && deck.cards[i] == c;
        assert i in order;
        var k :| 0 <= k < |order| && order[k] == i;
        assert shuffled[k] == c;
      }
    }
  }
}
