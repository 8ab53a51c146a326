/** A generic card game: players each holding card sets, and a round-robin deal. */
module Games {

  import opened Cards
  import opened CardDeckFactory
  import opened Dealing

  /** Who may see a card set. */
  datatype CardSetState = InHand | OnTable | Blind

  /** A named, ordered set of cards with its visibility. */
  datatype CardSet = CardSet(name: string, state: CardSetState, cards: seq<Card>)

  datatype Player = Player(name: string, isCpu: bool)

  /** A player taking part in a game, with the card sets it owns. */
  datatype GamePlayer = GamePlayer(player: Player, cardSets: seq<CardSet>)

  /** The player with `cards` appended to its first card set and nothing else changed. */
  function AddToFirstSet(gp: GamePlayer, cards: seq<Card>): (r: GamePlayer)
    requires |gp.cardSets| > 0
    ensures r.player == gp.player && |r.cardSets| == |gp.cardSets|
    ensures r.cardSets[0] == gp.cardSets[0].(cards := gp.cardSets[0].cards + cards)
    ensures r.cardSets[1..] == gp.cardSets[1..]
  {
    gp.(cardSets := gp.cardSets[0 := gp.cardSets[0].(cards := gp.cardSets[0].cards + cards)])
  }

  lemma AddNothing(gp: GamePlayer)
    requires |gp.cardSets| > 0
    ensures AddToFirstSet(gp, []) == gp
  {
    assert gp.cardSets[0].cards + [] == gp.cardSets[0].cards;
  }

  lemma AddInTwoSteps(gp: GamePlayer, a: seq<Card>, b: seq<Card>)
    requires |gp.cardSets| > 0
    ensures AddToFirstSet(AddToFirstSet(gp, a), b) == AddToFirstSet(gp, a + b)
  {
    assert gp.cardSets[0].cards + a + b == gp.cardSets[0].cards + (a + b);
  }

  /** One more card dealt adds it to the first set of the player whose seat it lands
      on, and changes no other player. */
  lemma DealOneMore(gp: GamePlayer, s: seq<Card>, x: Card, n: nat, p: nat)
    requires n > 0 && |gp.cardSets| > 0
    ensures AddToFirstSet(gp, Dealt(s + [x], n, p)) ==
      if Seat(|s|, n) == p then AddToFirstSet(AddToFirstSet(gp, Dealt(s, n, p)), [x])
      else AddToFirstSet(gp, Dealt(s, n, p))
  {
    DealtSnoc(s, x, n, p);
    AddInTwoSteps(gp, Dealt(s, n, p), [x]);
    assert Dealt(s, n, p) + [] == Dealt(s, n, p);
  }

  class Game {
    var gamePlayers: seq<GamePlayer>
    var deck: Deck

    /** Every player owns at least the first card set, which the deal fills. */
    ghost predicate Valid()
      reads this
    {
      forall i :: 0 <= i < |gamePlayers| ==> |gamePlayers[i].cardSets| > 0
    }

    /** Each player joins in the given order with one empty card set named "Hand", held in hand. */
    constructor (players: seq<Player>, deck: Deck)
      ensures Valid()
      ensures |gamePlayers| == |players| && this.deck == deck
      ensures forall i :: 0 <= i < |players| ==>
        gamePlayers[i].player == players[i] && gamePlayers[i].cardSets == [CardSet("Hand", InHand, [])]
    {
      gamePlayers := seq(|players|, i requires 0 <= i < |players| =>
        GamePlayer(players[i], [CardSet("Hand", InHand, [])]));
      this.deck := deck;
    }

    /** Deals the deck's shuffled cards one at a time: a counter names the player to
        receive the next card, goes up by one per card and wraps to 0 at the player count.
        `order` is the shuffle the C# `Deck.GetShuffledCards` draws at random, given as a
        permutation of the deck's positions. Every card of the deck is dealt. */
    method Start(order: seq<nat>)
      requires Valid()
      requires IsPermutation(order, |deck.cards|)
      requires |gamePlayers| > 0 || deck.cards == []
      modifies this
      ensures Valid() && |gamePlayers| == old(|gamePlayers|) && deck == old(deck)
      ensures forall i :: 0 <= i < |gamePlayers| ==>
        gamePlayers[i] == AddToFirstSet(old(gamePlayers[i]), Dealt(ShuffledCards(deck, order), |gamePlayers|, i))
      ensures |gamePlayers| > 0 ==> TotalDealt(ShuffledCards(deck, order), |gamePlayers|, |gamePlayers|) == |deck.cards|
    {
      var shuffled := ShuffledCards(deck, order);
      var n := |gamePlayers|;
      ghost var initial := gamePlayers;
      var current := 0;
      forall i | 0 <= i < n ensures AddToFirstSet(initial[i], []) == initial[i] {
        AddNothing(initial[i]);
      }
      for k := 0 to |shuffled|
        invariant |gamePlayers| == n && Valid() && deck == old(deck)
        invariant n > 0 ==> current == Seat(k, n)
        invariant forall i :: 0 <= i < n ==>
          gamePlayers[i] == AddToFirstSet(initial[i], Dealt(shuffled[..k], n, i))
      {
        var gamePlayer := gamePlayers[current];
        gamePlayers := gamePlayers[current := AddToFirstSet(gamePlayer, [shuffled[k]])];

        assert shuffled[..k] + [shuffled[k]] == shuffled[..k + 1];
        forall i | 0 <= i < n
          ensures gamePlayers[i] == AddToFirstSet(initial[i], Dealt(shuffled[..k + 1], n, i))
        {
          DealOneMore(initial[i], shuffled[..k], shuffled[k], n, i);
        }

        current := current + 1;
        if current == n {
          current := 0;
        }
      }
      assert shuffled[..|shuffled|] == shuffled;
      if n > 0 {
        AllCardsDealt(shuffled, n);
      }
    }
  }
}
