/** The Snap authority's whole state as one value, and each of its state changes as a
    function on that value. The class Snap.SnapGame keeps the same state in fields and
    its methods that deal, publish, lay, skip, call snap or win are proved to change
    them exactly as these functions say (InitialiseGame, and a JoinGame that does not
    start the game, are stated as plain record updates of the state); what the
    game promises (cards are conserved, snapshots are numbered and current, the game
    ends exactly when one stack holds the deck) is proved here, once, about the values. */
module SnapTables {

  import opened Wrappers
  import opened Cards
  import opened CardDeckFactory
  import opened Dealing
  import opened SnapRules

  datatype Table = Table(
    status: GameStatus,
    options: Option<SnapGameOptions>,
    players: seq<SnapGamePlayer>,
    deck: Deck,
    stacks: map<PlayerId, seq<Card>>,
    handsWon: map<PlayerId, nat>,
    inPlay: seq<Card>,
    states: seq<SnapGameState>,
    turn: Option<PlayerId>,
    inbox: map<PlayerId, Delivery>)

  /** The state of a newly constructed authority. */
  const Fresh: Table := Table(NotInitialised, None, [], Deck([]), map[], map[], [], [], None, map[])

  /** The cards have been dealt: the game is being played or is over. */
  predicate IsStarted(t: Table)
  {
    t.status == Playing || t.status == Finished
  }

  /** Every snapshot's id is its position in the list: ids run 0, 1, 2, ... */
  ghost predicate Numbered(states: seq<SnapGameState>)
  {
    forall i :: 0 <= i < |states| ==> states[i].gameStateId == i
  }

  function Latest(t: Table): SnapGameState
    requires t.states != []
  {
    t.states[|t.states| - 1]
  }

  /** Every card the two players and the in-play stack hold, counted with multiplicity. */
  ghost function Held(t: Table): multiset<Card>
    requires |t.players| == 2 && HasStacks(t.players, t.stacks)
  {
    multiset(t.stacks[t.players[0].id]) + multiset(t.stacks[t.players[1].id]) + multiset(t.inPlay)
  }

  /** Two players, each with one stack and one hands-won counter. */
  ghost predicate Seated(t: Table)
  {
    TwoPlayers(t.players) && t.stacks.Keys == Ids(t.players) && t.handsWon.Keys == Ids(t.players)
  }

  /** The two stacks and the in-play stack together hold exactly the deck. */
  ghost predicate Conserved(t: Table)
  {
    Seated(t) && Held(t) == multiset(t.deck.cards)
  }

  /** The piles of a dealt game: two players with distinct names, one stack and one
      counter each, the piles together holding exactly the deck, a turn holder and a
      face-up card while the game is played, and, once it is over, no turn holder,
      nothing in play and one stack holding the whole deck. */
  ghost predicate CardsInPlace(t: Table)
  {
    && Conserved(t) && DistinctNames(t.players)
    && (t.status == Playing ==> t.turn.Some? && t.turn.value in Ids(t.players) && t.inPlay != [])
    && (t.status == Finished ==>
          t.turn.None? && t.inPlay == [] && exists p :: p in t.stacks && |t.stacks[p]| == |t.deck.cards|)
  }

  /** The latest snapshot, and what every player last received, show the current piles,
      counters and turn. */
  ghost predicate Announced(t: Table)
    requires HasStacks(t.players, t.stacks) && HasStacks(t.players, t.handsWon)
  {
    && t.states != [] && Numbered(t.states)
    && Shows(Latest(t), t.players, t.stacks, t.handsWon, t.inPlay, t.turn)
    && t.inbox == Deliveries(t.players, t.stacks, t.inPlay, t.turn, Latest(t))
  }

  /** The invariant of the authority: before the deal, at most two players with distinct
      ids, options present exactly once initialised, nothing published; after it, the
      piles are in place and announced. */
  ghost predicate Good(t: Table)
  {
    && |t.players| <= MaxPlayers && DistinctIds(t.players)
    && (t.status == NotInitialised <==> t.options.None?)
    && (t.status == NotInitialised ==> t.players == [])
    && (!IsStarted(t) ==> t.states == [] && t.inbox == map[])
    && (IsStarted(t) ==> CardsInPlace(t) && Announced(t))
  }

  lemma FreshIsGood()
    ensures Good(Fresh) && !IsStarted(Fresh)
  {
  }

  function NameOf(t: Table, p: PlayerId): string
    requires p in Ids(t.players)
  {
    PlayerWithId(t.players, p).name
  }

  /** Publishing: a snapshot of the current piles, counters and turn, with the next id,
      is appended to the list and delivered to every player with the actions offered
      to it. Nothing else changes. */
  function Publish(t: Table, lastAction: SnapAction, byName: string): (r: Table)
    requires HasStacks(t.players, t.stacks) && HasStacks(t.players, t.handsWon)
    ensures r == t.(states := r.states, inbox := r.inbox)
    ensures r.states != [] && r.states == t.states + [Latest(r)]
    ensures Latest(r).gameStateId == |t.states|
    ensures Latest(r).lastAction == lastAction && Latest(r).lastActionByName == byName
    ensures Shows(Latest(r), t.players, t.stacks, t.handsWon, t.inPlay, t.turn)
    ensures Numbered(t.states) ==> Announced(r)
  {
    var gameState := SnapGameState(|t.states|, lastAction, byName,
      CardsInHand(t.players, t.stacks), ByName(t.players, t.handsWon), RenderAll(t.inPlay), t.turn);
    t.(states := t.states + [gameState], inbox := Deliveries(t.players, t.stacks, t.inPlay, t.turn, gameState))
  }

  /** A dealt table whose piles are in place and whose snapshots so far are numbered:
      publishing it makes it valid. */
  ghost predicate Ready(t: Table)
  {
    IsStarted(t) && t.options.Some? && DistinctIds(t.players) && CardsInPlace(t) && Numbered(t.states)
  }

  lemma PublishIsGood(t: Table, lastAction: SnapAction, byName: string)
    requires Ready(t)
    ensures Good(Publish(t, lastAction, byName))
  {
  }

  /** The cards of a standard deck, none repeated. */
  ghost predicate NewDeck(deck: Deck)
  {
    |deck.cards| == StandardDeckSize
    && forall i, j :: 0 <= i < j < |deck.cards| ==> deck.cards[i].id != deck.cards[j].id
  }

  /** The piles and counters after a new deal of `deck`, enumerated in the order
      `dealShuffle` gives: all but the last card dealt round-robin from the first
      player, the last card face up, no hands won, the first player's turn. */
  function Deal(t: Table, deck: Deck, dealShuffle: seq<nat>): (r: Table)
    requires |t.players| == 2 && |deck.cards| == StandardDeckSize && Positions(dealShuffle, StandardDeckSize)
    ensures r.players == t.players && r.status == Playing && r.deck == deck
    ensures HasStacks(r.players, r.stacks) && HasStacks(r.players, r.handsWon)
    ensures |r.inPlay| == 1 && r.turn == Some(t.players[0].id)
    ensures r == t.(status := r.status, deck := r.deck, stacks := r.stacks, handsWon := r.handsWon,
                    inPlay := r.inPlay, turn := r.turn)
  {
    var all := ShuffledCards(deck, dealShuffle);
    var toDeal := all[..|all| - 1];
    var hands := map[t.players[0].id := Dealing.Dealt(toDeal, 2, 0), t.players[1].id := Dealing.Dealt(toDeal, 2, 1)];
    t.(status := Playing, deck := deck, stacks := hands, handsWon := Uniform(t.players, 0),
       inPlay := [all[|all| - 1]], turn := Some(t.players[0].id))
  }

  /** A deal is fixed by the two hands it gives: any map holding exactly those hands
      under the two players' ids is the one Deal builds. */
  lemma DealByHands(t: Table, deck: Deck, dealShuffle: seq<nat>, hands: map<PlayerId, seq<Card>>)
    requires TwoPlayers(t.players) && |deck.cards| == StandardDeckSize && Positions(dealShuffle, StandardDeckSize)
    requires hands.Keys == Ids(t.players)
    requires forall i :: 0 <= i < 2 ==>
      hands[t.players[i].id] == Dealing.Dealt(ShuffledCards(deck, dealShuffle)[..StandardDeckSize - 1], 2, i)
    ensures Deal(t, deck, dealShuffle) == t.(status := Playing, deck := deck, stacks := hands,
      handsWon := Uniform(t.players, 0), inPlay := [ShuffledCards(deck, dealShuffle)[StandardDeckSize - 1]],
      turn := Some(t.players[0].id))
  {
    IdsOfTwo(t.players);
    assert hands == map[t.players[0].id := hands[t.players[0].id], t.players[1].id := hands[t.players[1].id]];
  }

  /** Dealing all but the last card of a shuffled standard deck to two players and
      laying the last one face up places every card of the deck exactly once. */
  lemma StartKeepsTheDeck(deck: Deck, order: seq<nat>)
    requires IsPermutation(order, |deck.cards|) && |deck.cards| == StandardDeckSize
    requires forall i, j :: 0 <= i < j < |deck.cards| ==> deck.cards[i].id != deck.cards[j].id
    ensures var all := ShuffledCards(deck, order);
      multiset(Dealing.Dealt(all[..51], 2, 0)) + multiset(Dealing.Dealt(all[..51], 2, 1)) + multiset([all[51]])
        == multiset(deck.cards)
  {
    var all := ShuffledCards(deck, order);
    TwoHandsConserveCards(all[..51]);
    assert all == all[..51] + [all[51]];
    ShuffledCardsAreTheDeck(deck, order);
  }

  /** A deal to two players places every card of the new deck exactly once. */
  lemma DealPlacesCards(t: Table, deck: Deck, dealShuffle: seq<nat>)
    requires TwoPlayers(t.players) && DistinctNames(t.players)
    requires NewDeck(deck) && IsPermutation(dealShuffle, StandardDeckSize)
    ensures var u := Deal(t, deck, dealShuffle);
      CardsInPlace(u) && Held(u) == multiset(deck.cards)
  {
    var u := Deal(t, deck, dealShuffle);
    IdsOfTwo(t.players);
    DealHoldsTheDeck(t, deck, dealShuffle);
  }

  /** The two dealt hands and the face-up card together are exactly the new deck. */
  lemma DealHoldsTheDeck(t: Table, deck: Deck, dealShuffle: seq<nat>)
    requires TwoPlayers(t.players) && NewDeck(deck) && IsPermutation(dealShuffle, StandardDeckSize)
    ensures var u := Deal(t, deck, dealShuffle);
      HasStacks(u.players, u.stacks) && Held(u) == multiset(deck.cards)
  {
    StartKeepsTheDeck(deck, dealShuffle);
  }

  /** After a deal the first player holds 26 cards, the second 25, and one card is
      face up. */
  lemma DealSizes(t: Table, deck: Deck, dealShuffle: seq<nat>)
    requires TwoPlayers(t.players) && |deck.cards| == StandardDeckSize && Positions(dealShuffle, StandardDeckSize)
    ensures var u := Deal(t, deck, dealShuffle);
      |u.stacks[t.players[0].id]| == 26 && |u.stacks[t.players[1].id]| == 25 && |u.inPlay| == 1
  {
    var all := ShuffledCards(deck, dealShuffle);
    HandSize(all[..51], 2, 0);
    HandSize(all[..51], 2, 1);
  }

  /** Starting a ready game of two players with distinct names yields a valid game in
      play whose first snapshot, id 0, reports a card laid by the dealer. */
  lemma StartIsGood(t: Table, deck: Deck, dealShuffle: seq<nat>)
    requires Good(t) && t.status == ReadyToStart && |t.players| == 2 && DistinctNames(t.players)
    requires NewDeck(deck) && IsPermutation(dealShuffle, StandardDeckSize)
    ensures var r := Publish(Deal(t, deck, dealShuffle), CardLaid, DealerName);
      && Good(r) && |r.states| == 1 && Latest(r).gameStateId == 0
  {
    DealPlacesCards(t, deck, dealShuffle);
    PublishIsGood(Deal(t, deck, dealShuffle), CardLaid, DealerName);
  }

  /** `p`'s first card goes to the top of the in-play stack and the turn passes from
      its holder to the other player. */
  function LaidDown(t: Table, p: PlayerId): (r: Table)
    requires Seated(t) && p in Ids(t.players) && t.stacks[p] != []
    requires t.turn.Some? && t.turn.value in Ids(t.players)
    ensures Seated(r)
    ensures r.stacks == t.stacks[p := t.stacks[p][1..]] && r.inPlay == t.inPlay + [t.stacks[p][0]]
    ensures r.turn == Some(Opponent(t.players, t.turn.value))
    ensures r == t.(stacks := r.stacks, inPlay := r.inPlay, turn := r.turn)
  {
    var moved := MoveFirstTo(t.stacks[p], t.inPlay);
    t.(stacks := t.stacks[p := moved.0], inPlay := moved.1, turn := Some(Opponent(t.players, t.turn.value)))
  }

  /** LayCard (and the re-lay after a snap): the card is laid down and one snapshot,
      reporting it under `p`'s name, is published. */
  function Lay(t: Table, p: PlayerId): (r: Table)
    requires Seated(t) && p in Ids(t.players) && t.stacks[p] != []
    requires t.turn.Some? && t.turn.value in Ids(t.players)
    ensures r.states != [] && r.states == t.states + [Latest(r)]
    ensures r.players == t.players && r.deck == t.deck && r.options == t.options
  {
    Publish(LaidDown(t, p), CardLaid, NameOf(t, p))
  }

  /** SkipGo: no card moves, the turn passes to the other player, and one snapshot is
      published. */
  function Skip(t: Table, p: PlayerId): (r: Table)
    requires Seated(t) && p in Ids(t.players) && t.turn.Some? && t.turn.value in Ids(t.players)
    ensures r == t.(turn := r.turn, states := r.states, inbox := r.inbox)
    ensures r.turn == Some(Opponent(t.players, t.turn.value))
    ensures r.states != [] && r.states == t.states + [Latest(r)]
  {
    Publish(t.(turn := Some(Opponent(t.players, t.turn.value))), SkippedGo, NameOf(t, p))
  }

  /** Who collects the in-play stack when `caller` calls snap: the caller when the top
      two cards have the same number, its opponent otherwise. */
  function Receiver(t: Table, caller: PlayerId): (r: PlayerId)
    requires TwoPlayers(t.players) && caller in Ids(t.players) && |t.inPlay| >= 2
    ensures r in Ids(t.players)
    ensures r == caller <==> t.inPlay[|t.inPlay| - 2].number == t.inPlay[|t.inPlay| - 1].number
  {
    var lastTwoCards := t.inPlay[|t.inPlay| - 2..];
    if lastTwoCards[0].number == lastTwoCards[1].number then caller else Opponent(t.players, caller)
  }

  /** The counters with one more hand won by `p`. */
  function OneMoreHand(won: map<PlayerId, nat>, p: PlayerId): (r: map<PlayerId, nat>)
    requires p in won
    ensures r.Keys == won.Keys && r[p] == won[p] + 1
    ensures forall q :: q in won && q != p ==> r[q] == won[q]
  {
    won[p := won[p] + 1]
  }

  /** The first half of a snap call: the receiver takes the in-play stack, in order,
      under its own stack, scores one hand and gets the turn. */
  function Collect(t: Table, receiver: PlayerId): (r: Table)
    requires receiver in t.stacks && receiver in t.handsWon
    ensures r.stacks == t.stacks[receiver := t.stacks[receiver] + t.inPlay]
    ensures r.handsWon == OneMoreHand(t.handsWon, receiver)
    ensures r.inPlay == [] && r.turn == Some(receiver)
    ensures r == t.(stacks := r.stacks, handsWon := r.handsWon, inPlay := r.inPlay, turn := r.turn)
  {
    var moved := MoveAllTo(t.inPlay, t.stacks[receiver]);
    t.(handsWon := OneMoreHand(t.handsWon, receiver),
       stacks := t.stacks[receiver := moved.1], inPlay := moved.0, turn := Some(receiver))
  }

  /** GameWon: nobody's turn, the game is over, and a final snapshot credits `winner`
      with a successful snap. */
  function Win(t: Table, winner: PlayerId): (r: Table)
    requires HasStacks(t.players, t.stacks) && HasStacks(t.players, t.handsWon) && winner in Ids(t.players)
    ensures r.status == Finished && r.turn == None && |r.states| == |t.states| + 1
    ensures r.states == t.states + [Latest(r)]
    ensures r.players == t.players && r.deck == t.deck && r.options == t.options
  {
    Publish(t.(turn := None, status := Finished), SnapSuccess, NameOf(t, winner))
  }

  /** CallSnap by `caller`: the receiver collects. If it now holds the whole deck the
      game is won; otherwise the call's outcome is published under the caller's name
      and the caller lays its next card, passing the turn on from the receiver. */
  function SnapCall(t: Table, caller: PlayerId): (r: Table)
    requires Conserved(t) && caller in Ids(t.players) && |t.inPlay| >= 2
    ensures r.players == t.players && r.deck == t.deck && r.options == t.options
    ensures |r.states| > |t.states|
  {
    var receiver := Receiver(t, caller);
    var u := Collect(t, receiver);
    if |u.stacks[receiver]| == |u.deck.cards| then Win(u, receiver)
    else
      var v := Publish(u, if receiver == caller then SnapSuccess else SnapFail, NameOf(t, caller));
      CallerKeepsACard(t, caller);
      Lay(v, caller)
  }

  /** When a snap call does not end the game, the caller still has a card to lay. */
  lemma CallerKeepsACard(t: Table, caller: PlayerId)
    requires Conserved(t) && caller in Ids(t.players) && |t.inPlay| >= 2
    ensures var receiver := Receiver(t, caller);
      var u := Collect(t, receiver);
      Seated(u) && (|u.stacks[receiver]| != |t.deck.cards| ==> u.stacks[caller] != [])
  {
    var receiver := Receiver(t, caller);
    CollectKeepsCards(t, receiver);
    if receiver != caller {
      OpponentOfOpponent(t.players, caller);
    }
  }

  /** Collecting moves cards only; when the receiver does not end up with the whole
      deck, the other player still holds a card. */
  lemma CollectKeepsCards(t: Table, receiver: PlayerId)
    requires Conserved(t) && receiver in Ids(t.players)
    ensures Held(Collect(t, receiver)) == Held(t)
    ensures var u := Collect(t, receiver);
      |u.stacks[receiver]| != |t.deck.cards| ==> u.stacks[Opponent(t.players, receiver)] != []
  {
    var u := Collect(t, receiver);
    var other := Opponent(t.players, receiver);
    OpponentOfOpponent(t.players, receiver);
    IdsOfTwo(t.players);
    assert Held(u) == multiset(u.stacks[receiver]) + multiset(u.stacks[other]) + multiset(u.inPlay);
    assert Held(t) == multiset(t.stacks[receiver]) + multiset(t.stacks[other]) + multiset(t.inPlay);
    WholeDeckLeavesNothingElse(u.stacks[receiver], u.stacks[other], [], t.deck.cards);
  }

  /** Laying a card moves it from `p`'s stack to the in-play stack and nothing else. */
  lemma LayMovesOneCard(t: Table, p: PlayerId)
    requires Seated(t) && p in Ids(t.players) && t.stacks[p] != []
    requires t.turn.Some? && t.turn.value in Ids(t.players)
    ensures Held(LaidDown(t, p)) == Held(t)
  {
    IdsOfTwo(t.players);
    var r := LaidDown(t, p);
    var other := Opponent(t.players, p);
    OpponentOfOpponent(t.players, p);
    var moved := MoveFirstTo(t.stacks[p], t.inPlay);
    assert r.stacks[p] == moved.0 && r.inPlay == moved.1 && r.stacks[other] == t.stacks[other];
    assert Held(t) == multiset(t.stacks[p]) + multiset(t.stacks[other]) + multiset(t.inPlay);
    assert Held(r) == multiset(moved.0) + multiset(moved.1) + multiset(t.stacks[other]);
  }

  /** LayCard by the turn holder keeps the invariant: its first card, and only that
      card, moves to the top of the in-play stack, the turn passes to the other player,
      and exactly one snapshot, reporting the lay, is published. */
  lemma LayIsGood(t: Table, p: PlayerId)
    requires Good(t) && t.status == Playing && t.turn == Some(p) && t.stacks[p] != []
    ensures var r := Lay(t, p);
      && Good(r) && r.status == Playing && r.deck == t.deck && r.handsWon == t.handsWon
      && r.stacks == t.stacks[p := t.stacks[p][1..]] && r.inPlay == t.inPlay + [t.stacks[p][0]]
      && r.turn == Some(Opponent(t.players, p))
      && r.states == t.states + [Latest(r)]
      && Latest(r).lastAction == CardLaid && Latest(r).lastActionByName == NameOf(t, p)
  {
    LayMovesOneCard(t, p);
    PublishIsGood(LaidDown(t, p), CardLaid, NameOf(t, p));
  }

  /** SkipGo by the turn holder keeps the invariant: no card moves, the turn passes to
      the other player, and exactly one snapshot, reporting the skip, is published. */
  lemma SkipIsGood(t: Table, p: PlayerId)
    requires Good(t) && t.status == Playing && t.turn == Some(p)
    ensures var r := Skip(t, p);
      && Good(r) && r.status == Playing && r.deck == t.deck && r.handsWon == t.handsWon
      && r.stacks == t.stacks && r.inPlay == t.inPlay && r.turn == Some(Opponent(t.players, p))
      && r.states == t.states + [Latest(r)]
      && Latest(r).lastAction == SkippedGo && Latest(r).lastActionByName == NameOf(t, p)
  {
    var u := t.(turn := Some(Opponent(t.players, p)));
    assert Held(u) == Held(t);
    PublishIsGood(u, SkippedGo, NameOf(t, p));
  }

  /** A snap call keeps the invariant. */
  lemma SnapCallIsGood(t: Table, caller: PlayerId)
    requires Good(t) && IsStarted(t) && caller in Ids(t.players) && |t.inPlay| >= 2
    ensures Good(SnapCall(t, caller))
  {
    var receiver := Receiver(t, caller);
    var u := Collect(t, receiver);
    CollectKeepsCards(t, receiver);
    CallerKeepsACard(t, caller);
    if |u.stacks[receiver]| == |u.deck.cards| {
      var w := u.(turn := None, status := Finished);
      assert Held(w) == Held(u);
      assert Ready(w);
      PublishIsGood(w, SnapSuccess, NameOf(u, receiver));
    } else {
      var v := Publish(u, if receiver == caller then SnapSuccess else SnapFail, NameOf(t, caller));
      assert Held(v) == Held(u);
      LayMovesOneCard(v, caller);
      var x := LaidDown(v, caller);
      assert Ready(x);
      PublishIsGood(x, CardLaid, NameOf(v, caller));
    }
  }

  /** A snap call always makes the receiver score one hand, and nothing changes the
      players or the deck. */
  lemma SnapCallScores(t: Table, caller: PlayerId)
    requires CardsInPlace(t) && caller in Ids(t.players) && |t.inPlay| >= 2
    ensures var receiver := Receiver(t, caller);
      var r := SnapCall(t, caller);
      && r.players == t.players && r.deck == t.deck
      && r.handsWon == OneMoreHand(t.handsWon, receiver)
  {
    CallerKeepsACard(t, caller);
  }

  /** A snap call after which the receiver holds the whole deck ends the game: nobody's
      turn, nothing in play, the receiver's stack followed by the in-play stack, and one
      final snapshot crediting the receiver with a successful snap. */
  lemma SnapCallWins(t: Table, caller: PlayerId)
    requires CardsInPlace(t) && caller in Ids(t.players) && |t.inPlay| >= 2
    requires |t.stacks[Receiver(t, caller)]| + |t.inPlay| == |t.deck.cards|
    ensures var receiver := Receiver(t, caller);
      var r := SnapCall(t, caller);
      && r.status == Finished && r.turn == None && r.inPlay == []
      && r.stacks == t.stacks[receiver := t.stacks[receiver] + t.inPlay]
      && r.states == t.states + [Latest(r)]
      && Latest(r).lastAction == SnapSuccess && Latest(r).lastActionByName == NameOf(t, receiver)
  {
  }

  /** A snap call after which the receiver does not hold the whole deck plays on: the
      caller (who provably still has a card) lays its first card on the emptied stack,
      and the turn passes from the receiver to the other player, which after a wrong
      call is the caller itself. */
  lemma SnapCallPlaysOn(t: Table, caller: PlayerId)
    requires CardsInPlace(t) && IsStarted(t) && caller in Ids(t.players) && |t.inPlay| >= 2
    requires |t.stacks[Receiver(t, caller)]| + |t.inPlay| != |t.deck.cards|
    ensures var receiver := Receiver(t, caller);
      var afterSnap := t.stacks[receiver := t.stacks[receiver] + t.inPlay];
      var r := SnapCall(t, caller);
      && afterSnap[caller] != []
      && r.status == Playing
      && r.stacks == afterSnap[caller := afterSnap[caller][1..]] && r.inPlay == [afterSnap[caller][0]]
      && r.turn == Some(if receiver == caller then Opponent(t.players, caller) else caller)
  {
    CallerKeepsACard(t, caller);
    OpponentOfOpponent(t.players, caller);
  }

  /** When a snap call plays on, two snapshots follow, both under the caller's name:
      the call's outcome, then the card laid. */
  lemma {:induction false} SnapCallReports(t: Table, caller: PlayerId)
    requires Conserved(t) && caller in Ids(t.players) && |t.inPlay| >= 2
    requires |t.stacks[Receiver(t, caller)]| + |t.inPlay| != |t.deck.cards|
    ensures var receiver := Receiver(t, caller);
      var r := SnapCall(t, caller);
      && |r.states| == |t.states| + 2 && r.states == t.states + [r.states[|t.states|], Latest(r)]
      && r.states[|t.states|].lastAction == (if receiver == caller then SnapSuccess else SnapFail)
      && r.states[|t.states|].lastActionByName == NameOf(t, caller)
      && Latest(r).lastAction == CardLaid && Latest(r).lastActionByName == NameOf(t, caller)
  {
    var receiver := Receiver(t, caller);
    var u := Collect(t, receiver);
    CallerKeepsACard(t, caller);
    var v := Publish(u, if receiver == caller then SnapSuccess else SnapFail, NameOf(t, caller));
    var r := Lay(v, caller);
    LastTwo(t.states, Latest(v), Latest(r));
  }

  /** The first of those two snapshots shows the collected piles, the receiver's new
      score, an empty in-play stack and the receiver to play. */
  lemma {:induction false} SnapCallShowsCollection(t: Table, caller: PlayerId)
    requires Conserved(t) && caller in Ids(t.players) && |t.inPlay| >= 2
    requires |t.stacks[Receiver(t, caller)]| + |t.inPlay| != |t.deck.cards|
    ensures var receiver := Receiver(t, caller);
      var afterSnap := t.stacks[receiver := t.stacks[receiver] + t.inPlay];
      var r := SnapCall(t, caller);
      && |r.states| > |t.states|
      && Shows(r.states[|t.states|], t.players, afterSnap,
               OneMoreHand(t.handsWon, receiver), [], Some(receiver))
  {
    var receiver := Receiver(t, caller);
    var u := Collect(t, receiver);
    CallerKeepsACard(t, caller);
    var v := Publish(u, if receiver == caller then SnapSuccess else SnapFail, NameOf(t, caller));
    var r := Lay(v, caller);
    LastTwo(t.states, Latest(v), Latest(r));
  }

  /** A correct snap call never leaves the caller holding the turn: either the game is
      won and nobody holds it, or the caller lays its next card and the turn passes to
      the other player. */
  lemma CorrectSnapHandsTurnAway(t: Table, caller: PlayerId)
    requires CardsInPlace(t) && IsStarted(t) && caller in Ids(t.players) && |t.inPlay| >= 2
    requires t.inPlay[|t.inPlay| - 2].number == t.inPlay[|t.inPlay| - 1].number
    ensures SnapCall(t, caller).turn != Some(caller)
  {
    if |t.stacks[Receiver(t, caller)]| + |t.inPlay| == |t.deck.cards| {
      SnapCallWins(t, caller);
    } else {
      SnapCallPlaysOn(t, caller);
    }
  }

  /** What a seated player last received is the latest snapshot, showing the in-play
      stack and the turn, with the actions the offering rule gives that player for the
      current piles and turn. */
  lemma Received(t: Table, me: PlayerId)
    requires Seated(t) && DistinctIds(t.players) && Announced(t) && me in Ids(t.players)
    ensures me in t.inbox
    ensures t.inbox[me] ==
      Delivery(Latest(t), AvailableActions(t.turn == Some(me), t.stacks[me] != [], |t.inPlay|))
    ensures Latest(t).cardsOnStack == RenderAll(t.inPlay) && Latest(t).playerIdTurn == t.turn
  {
    IdsOfTwo(t.players);
  }

  lemma LastTwo<T>(s: seq<T>, x: T, y: T)
    ensures |s + [x] + [y]| == |s| + 2 && (s + [x] + [y])[|s|] == x
    ensures s + [x] + [y] == s + [x, y]
  {
  }

  /** A dealt game is over exactly when one player's stack holds the whole deck. */
  lemma OverExactlyWhenOneHoldsAll(t: Table)
    requires Good(t) && IsStarted(t)
    ensures t.status == Finished <==> exists p :: p in t.stacks && |t.stacks[p]| == |t.deck.cards|
  {
    if t.status == Playing {
      IdsOfTwo(t.players);
      forall p | p in t.stacks
        ensures |t.stacks[p]| != |t.deck.cards|
      {
        var other := Opponent(t.players, p);
        assert Held(t) == multiset(t.stacks[p]) + multiset(t.stacks[other]) + multiset(t.inPlay);
        WholeDeckLeavesNothingElse(t.stacks[p], t.stacks[other], t.inPlay, t.deck.cards);
      }
    }
  }
}
