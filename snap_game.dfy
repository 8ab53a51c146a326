/** The Snap game authority: it owns the players, their hidden stacks, the shared
    in-play stack, the hands-won counters, the turn and the list of published
    snapshots, and it is the only thing that changes them. Each method states its new
    fields as a function of the old ones: a SnapTables function for the deal, the
    publication, the lay, the skip, the snap call and the win, and a record update
    for InitialiseGame and for a JoinGame that does not start the game. The invariant
    SnapTables.Good is kept by the public operations (InitialiseGame, JoinGame,
    StartGame, PlayAction and its Accept* branches) and by the agent's methods; the
    field-level helpers they call (DealDeck, SendGameState, NextPlayersTurn, GameWon,
    LayFirstCard, CollectStack, PassTurn, JudgeSnap) do not promise it. */
module Snap {

  import opened Wrappers
  import opened Cards
  import opened CardDeckFactory
  import opened Dealing
  import opened SnapRules
  import opened SnapTables
  import opened SnapAgent
  import Games

  /** The deal of a new game: one empty stack per player, then each card in turn to
      the player a counter names, the counter going up by one per card mod the
      number of players. */
  method DealRoundRobin(players: seq<SnapGamePlayer>, cards: seq<Card>) returns (stacks: map<PlayerId, seq<Card>>)
    requires |players| > 0 && DistinctIds(players)
    ensures stacks.Keys == Ids(players)
    ensures forall i :: 0 <= i < |players| ==> stacks[players[i].id] == Dealing.Dealt(cards, |players|, i)
  {
    stacks := Uniform(players, []);
    for dealtCardNumber := 0 to |cards|
      invariant stacks.Keys == Ids(players)
      invariant forall i :: 0 <= i < |players| ==>
        stacks[players[i].id] == Dealing.Dealt(cards[..dealtCardNumber], |players|, i)
    {
      var playerToDealTo := players[dealtCardNumber % |players|];
      stacks := stacks[playerToDealTo.id := stacks[playerToDealTo.id] + [cards[dealtCardNumber]]];

      SeatIsMod(dealtCardNumber, |players|);
      assert cards[..dealtCardNumber] + [cards[dealtCardNumber]] == cards[..dealtCardNumber + 1];
      forall i | 0 <= i < |players|
        ensures stacks[players[i].id] == Dealing.Dealt(cards[..dealtCardNumber + 1], |players|, i)
      {
        DealtSnoc(cards[..dealtCardNumber], cards[dealtCardNumber], |players|, i);
      }
    }
    assert cards[..|cards|] == cards;
  }

  /** What a player of a valid dealt game last received is the latest snapshot, which
      the agent can read, and the agent's snap test on it agrees with the authority's:
      the top two cards in play have the same number. */
  lemma AgentView(t: Table, me: PlayerId)
    requires Good(t) && IsStarted(t) && me in Ids(t.players)
    ensures me in t.inbox && t.inbox[me].state == Latest(t)
    ensures Readable(t.inbox[me].state.cardsOnStack)
    ensures ShowsSnap(t.inbox[me].state.cardsOnStack) <==>
      |t.inPlay| >= 2 && t.inPlay[|t.inPlay| - 2].number == t.inPlay[|t.inPlay| - 1].number
  {
    Received(t, me);
    ShowsSnapIffSameNumber(t.inPlay);
  }

  /** `u` is the authority's state after it accepted what `me` submitted in state `t`:
      the same state when nothing was submitted, and otherwise the snap call, lay or
      skip that the first action asks for. */
  ghost predicate CarriedOut(t: Table, u: Table, me: PlayerId, submitted: seq<PlayerAction>)
  {
    && (submitted == [] ==> u == t)
    && (submitted != [] && submitted[0].kind == CallSnap ==>
          Conserved(t) && me in Ids(t.players) && |t.inPlay| >= 2 && u == SnapCall(t, me))
    && (submitted != [] && submitted[0].kind == LayCard ==>
          Seated(t) && me in Ids(t.players) && t.turn == Some(me) && t.stacks[me] != [] && u == Lay(t, me))
    && (submitted != [] && submitted[0].kind == SkipGo ==>
          Seated(t) && me in Ids(t.players) && t.turn == Some(me) && u == Skip(t, me))
  }

  class SnapGame {
    var status: GameStatus
    var options: Option<SnapGameOptions>
    var players: seq<SnapGamePlayer>
    var deck: Deck
    /** Each player's hidden stack, by player id; the first card is the one laid next. */
    var stacks: map<PlayerId, seq<Card>>
    var handsWon: map<PlayerId, nat>
    /** The shared face-up stack; its last card is the top one. */
    var inPlay: seq<Card>
    /** Every snapshot published so far, oldest first. */
    var states: seq<SnapGameState>
    var turn: Option<PlayerId>
    /** What each joined player last received: the latest snapshot and the actions
        offered to it with that snapshot. */
    var inbox: map<PlayerId, Delivery>

    /** The fields as one value. */
    ghost function Now(): Table
      reads this
    {
      Table(status, options, players, deck, stacks, handsWon, inPlay, states, turn, inbox)
    }

    ghost predicate Valid()
      reads this
    {
      Good(Now())
    }

    /** The action cites the latest snapshot. */
    ghost predicate InSync(action: PlayerAction)
      reads this
      requires states != []
    {
      action.lastGameStateId == states[|states| - 1].gameStateId
    }

    /** A new game: not initialised, nobody joined, nothing published. */
    constructor ()
      ensures Valid() && Now() == Fresh
    {
      status := NotInitialised;
      options := None;
      players := [];
      deck := Deck([]);
      stacks := map[];
      handsWon := map[];
      inPlay := [];
      states := [];
      turn := None;
      inbox := map[];
      FreshIsGood();
    }

    /** Accepts the options once: missing options are refused first, then any status
        other than NotInitialised; both leave the game as it was. */
    method InitialiseGame(opts: Option<SnapGameOptions>) returns (r: Outcome<SetupError>)
      requires Valid()
      modifies this`status, this`options
      ensures Valid()
      ensures opts.None? ==> r == Fail(OptionsMissing) && unchanged(this)
      ensures opts.Some? && old(status) != NotInitialised ==> r == Fail(WrongStatus) && unchanged(this)
      ensures opts.Some? && old(status) == NotInitialised ==>
        r == Pass && Now() == old(Now()).(status := ReadyToStart, options := opts)
    {
      if opts.None? {
        return Fail(OptionsMissing);
      }
      if status != NotInitialised {
        return Fail(WrongStatus);
      }
      options := opts;
      status := ReadyToStart;
      r := Pass;
    }

    /** Adds a player while the game is waiting for players or ready to start and has
        room, and starts the game when this join seats the second player and the
        options ask for it. `newId` is the fresh Guid the C# `SnapGamePlayer` draws at random;
        the shuffles are used only when this join starts the game. */
    method JoinGame(player: Games.Player, newId: PlayerId, deckShuffle: seq<nat>, dealShuffle: seq<nat>)
      returns (r: JoinGameResponse)
      requires Valid()
      requires newId !in Ids(players)
      requires IsPermutation(deckShuffle, StandardDeckSize) && IsPermutation(dealShuffle, StandardDeckSize)
      requires ((status == WaitingForPlayers || status == ReadyToStart) && |players| == 1
                && options.Some? && options.value.autoStartWhenMinPlayersReached) ==>
        player.name != players[0].name
      modifies this
      ensures Valid()
      ensures old(status) != WaitingForPlayers && old(status) != ReadyToStart ==>
        r == JoinRefused(StatusForbidsJoin) && unchanged(this)
      ensures (old(status) == WaitingForPlayers || old(status) == ReadyToStart) && old(|players|) >= MaxPlayers ==>
        r == JoinRefused(GameFull) && unchanged(this)
      ensures (old(status) == WaitingForPlayers || old(status) == ReadyToStart) && old(|players|) < MaxPlayers ==>
        var joined := old(Now()).(players := old(players) + [SnapGamePlayer(newId, player.name)]);
        && r == Joined(SnapGamePlayer(newId, player.name))
        && (|joined.players| < MinPlayers ==> Now() == joined)
        && (|joined.players| >= MinPlayers && !joined.options.value.autoStartWhenMinPlayersReached ==>
              Now() == joined.(status := ReadyToStart))
        && (|joined.players| >= MinPlayers && joined.options.value.autoStartWhenMinPlayersReached ==>
              && |deck.cards| == StandardDeckSize
              && (forall i :: 0 <= i < |deck.cards| ==>
                    deck.cards[i].number == StandardCard(i).number && deck.cards[i].suit == StandardCard(i).suit)
              && (forall k :: 0 <= k < |deckShuffle| ==> deck.cards[deckShuffle[k]].id == k)
              && NewDeck(deck) && Now() == Publish(Deal(joined.(status := ReadyToStart), deck, dealShuffle), CardLaid, DealerName))
    {
      if status != WaitingForPlayers && status != ReadyToStart {
        return JoinRefused(StatusForbidsJoin);
      }
      if |players| >= MaxPlayers {
        return JoinRefused(GameFull);
      }
      var gamePlayer := SnapGamePlayer(newId, player.name);
      players := players + [gamePlayer];
      if |players| >= MinPlayers {
        status := ReadyToStart;
        if options.value.autoStartWhenMinPlayersReached {
          var started := StartGame(deckShuffle, dealShuffle);
        }
      }
      r := Joined(gamePlayer);
    }

    /** Deals a new game: builds the standard deck (ids following `deckShuffle`),
        enumerates it in the order `dealShuffle` gives, deals all but the last card
        round-robin starting with the first player, puts the last card face up, gives
        the first player the turn and publishes snapshot 0 as a card laid by the dealer.
        The shuffles stand for the random shuffles of the C# `SnapGame`. */
    method StartGame(deckShuffle: seq<nat>, dealShuffle: seq<nat>) returns (r: Outcome<SetupError>)
      requires Valid()
      requires IsPermutation(deckShuffle, StandardDeckSize) && IsPermutation(dealShuffle, StandardDeckSize)
      requires status == ReadyToStart && |players| == 2 ==> players[0].name != players[1].name
      modifies this
      ensures Valid()
      ensures old(status) != ReadyToStart ==> r == Fail(WrongStatus) && unchanged(this)
      ensures old(status) == ReadyToStart && (old(|players|) < MinPlayers || old(|players|) > MaxPlayers) ==>
        r == Fail(WrongPlayerCount) && unchanged(this)
      ensures old(status) == ReadyToStart && MinPlayers <= old(|players|) <= MaxPlayers ==>
        && r == Pass
        && |deck.cards| == StandardDeckSize
        && (forall i :: 0 <= i < |deck.cards| ==>
              deck.cards[i].number == StandardCard(i).number && deck.cards[i].suit == StandardCard(i).suit)
        && (forall k :: 0 <= k < |deckShuffle| ==> deck.cards[deckShuffle[k]].id == k)
        && NewDeck(deck)
        && Now() == Publish(Deal(old(Now()), deck, dealShuffle), CardLaid, DealerName)
    {
      if status != ReadyToStart {
        return Fail(WrongStatus);
      }
      if |players| < MinPlayers || |players| > MaxPlayers {
        return Fail(WrongPlayerCount);
      }
      ghost var before := Now();
      deck := CreateStandardDeck(deckShuffle);
      DealDeck(dealShuffle);
      StartIsGood(before, deck, dealShuffle);
      SendGameState(CardLaid, DealerName);
      r := Pass;
    }

    /** The deal of the new deck: status Playing, all but the last card of the deck's
        `dealShuffle` enumeration dealt round-robin, the last card face up and the first
        player's turn. */
    method DealDeck(dealShuffle: seq<nat>)
      requires TwoPlayers(players) && |deck.cards| == StandardDeckSize && Positions(dealShuffle, StandardDeckSize)
      modifies this`status, this`stacks, this`handsWon, this`inPlay, this`turn
      ensures Now() == Deal(old(Now()), deck, dealShuffle)
    {
      ghost var before := Now();
      var seated, allCards := players, ShuffledCards(deck, dealShuffle);
      var cardsToDeal := allCards[..|allCards| - 1];
      var firstCard := allCards[|allCards| - 1];
      var hands := DealRoundRobin(seated, cardsToDeal);
      DealByHands(before, deck, dealShuffle, hands);
      status, stacks, handsWon, inPlay, turn := Playing, hands, Uniform(seated, 0), [firstCard], Some(seated[0].id);
    }

    /** Publishes a snapshot of the current piles, counters and turn with the next id,
        and delivers it to every player with the actions offered to that player. */
    method SendGameState(lastAction: SnapAction, byName: string)
      requires HasStacks(players, stacks) && HasStacks(players, handsWon)
      modifies this`states, this`inbox
      ensures Now() == Publish(old(Now()), lastAction, byName)
    {
      var gameState := SnapGameState(|states|, lastAction, byName,
        CardsInHand(players, stacks), ByName(players, handsWon), RenderAll(inPlay), turn);
      states := states + [gameState];
      inbox := Deliveries(players, stacks, inPlay, turn, gameState);
    }

    /** Passes the turn to the other player. */
    method NextPlayersTurn()
      requires TwoPlayers(players) && turn.Some? && turn.value in Ids(players)
      modifies this`turn
      ensures turn == Some(Opponent(players, old(turn).value))
    {
      turn := Some(Opponent(players, turn.value));
    }

    /** Ends the game in favour of `winner`: nobody's turn, status Finished, and a final
        snapshot crediting the winner with a successful snap. */
    method GameWon(winner: PlayerId)
      requires HasStacks(players, stacks) && HasStacks(players, handsWon) && winner in Ids(players)
      modifies this`turn, this`status, this`states, this`inbox
      ensures Now() == Win(old(Now()), winner)
    {
      turn := None;
      status := Finished;
      SendGameState(SnapSuccess, PlayerWithId(players, winner).name);
    }

    /** Lays `p`'s first card on the in-play stack, passes the turn on and tells
        everyone: the step LayCard takes and a snap call ends with. */
    method LayFirstCard(p: PlayerId)
      requires Seated(Now()) && p in Ids(players) && stacks[p] != []
      requires turn.Some? && turn.value in Ids(players)
      modifies this`stacks, this`inPlay, this`turn, this`states, this`inbox
      ensures Now() == Lay(old(Now()), p)
    {
      ghost var before := Now();
      var moved := MoveFirstTo(stacks[p], inPlay);
      stacks, inPlay := stacks[p := moved.0], moved.1;
      NextPlayersTurn();
      assert Now() == LaidDown(before, p);
      SendGameState(CardLaid, PlayerWithId(players, p).name);
    }

    /** The receiver of a snap call scores a hand, takes the in-play stack under its
        own and gets the turn. */
    method CollectStack(receiver: PlayerId)
      requires receiver in stacks && receiver in handsWon
      modifies this`handsWon, this`stacks, this`inPlay, this`turn
      ensures Now() == Collect(old(Now()), receiver)
    {
      handsWon := OneMoreHand(handsWon, receiver);
      var moved := MoveAllTo(inPlay, stacks[receiver]);
      inPlay, stacks := moved.0, stacks[receiver := moved.1];
      turn := Some(receiver);
    }

    /** Plays one action. An action citing an old snapshot, a lay or skip out of turn,
        and a skip by a player who still has cards are refused and change nothing;
        otherwise the action takes effect as SnapTables.Lay, Skip and SnapCall say. */
    method PlayAction(action: PlayerAction) returns (r: PlayActionResponse)
      requires Valid() && IsStarted(Now())
      requires action.playerId in Ids(players)
      requires InSync(action) && action.kind != CallSnap ==> turn.Some?
      requires InSync(action) && action.kind == LayCard && turn == Some(action.playerId) ==>
        stacks[action.playerId] != []
      requires InSync(action) && action.kind == CallSnap ==> |inPlay| >= 2
      modifies this
      ensures Valid() && IsStarted(Now())
      ensures !old(InSync(action)) ==> r == Rejected(OutOfSync) && unchanged(this)
      ensures old(InSync(action)) && action.kind != CallSnap && old(turn) != Some(action.playerId) ==>
        r == Rejected(NotYourTurn) && unchanged(this)
      ensures (old(InSync(action)) && action.kind == SkipGo && old(turn) == Some(action.playerId)
               && old(stacks[action.playerId]) != []) ==>
        r == Rejected(SkipWithCardsLeft) && unchanged(this)
      ensures old(InSync(action)) && action.kind == LayCard && old(turn) == Some(action.playerId) ==>
        r == Accepted && Now() == Lay(old(Now()), action.playerId)
      ensures (old(InSync(action)) && action.kind == SkipGo && old(turn) == Some(action.playerId)
               && old(stacks[action.playerId]) == []) ==>
        r == Accepted && Now() == Skip(old(Now()), action.playerId)
      ensures old(InSync(action)) && action.kind == CallSnap ==>
        r == Accepted && Now() == SnapCall(old(Now()), action.playerId)
    {
      var player := PlayerWithId(players, action.playerId);
      if action.lastGameStateId != states[|states| - 1].gameStateId {
        return Rejected(OutOfSync);
      }
      match action.kind {
        case LayCard =>
          if action.playerId != turn.value {
            return Rejected(NotYourTurn);
          }
          AcceptLay(player.id);
          return Accepted;

        case SkipGo =>
          if action.playerId != turn.value {
            return Rejected(NotYourTurn);
          }
          if stacks[player.id] != [] {
            return Rejected(SkipWithCardsLeft);
          }
          AcceptSkip(player);
          return Accepted;

        case CallSnap =>
          AcceptSnap(player);
          return Accepted;
      }
    }

    /** The accepted LayCard branch of PlayAction. */
    method AcceptLay(p: PlayerId)
      requires Valid() && IsStarted(Now()) && turn == Some(p) && stacks[p] != []
      modifies this
      ensures Valid() && IsStarted(Now()) && Now() == Lay(old(Now()), p)
    {
      LayIsGood(Now(), p);
      LayFirstCard(p);
    }

    /** The accepted SkipGo branch of PlayAction. */
    method AcceptSkip(player: SnapGamePlayer)
      requires Valid() && IsStarted(Now()) && turn == Some(player.id)
      requires player == PlayerWithId(players, player.id)
      modifies this
      ensures Valid() && IsStarted(Now()) && Now() == Skip(old(Now()), player.id)
    {
      SkipIsGood(Now(), player.id);
      PassTurn(player);
    }

    /** Passes the turn on and reports the skip under the player's name. */
    method PassTurn(player: SnapGamePlayer)
      requires Seated(Now()) && player.id in Ids(players) && player == PlayerWithId(players, player.id)
      requires turn.Some? && turn.value in Ids(players)
      modifies this`turn, this`states, this`inbox
      ensures Now() == Skip(old(Now()), player.id)
    {
      NextPlayersTurn();
      SendGameState(SkippedGo, player.name);
    }

    /** The CallSnap branch of PlayAction. */
    method AcceptSnap(player: SnapGamePlayer)
      requires Valid() && IsStarted(Now()) && player.id in Ids(players)
      requires player == PlayerWithId(players, player.id) && |inPlay| >= 2
      modifies this
      ensures Valid() && IsStarted(Now()) && Now() == SnapCall(old(Now()), player.id)
    {
      SnapCallIsGood(Now(), player.id);
      JudgeSnap(player);
    }

    /** The CallSnap branch of PlayAction: the two top cards decide who receives the
        in-play stack; the receiver collects it, and then either wins or the caller
        lays its next card. */
    method JudgeSnap(player: SnapGamePlayer)
      requires Conserved(Now()) && player.id in Ids(players) && player == PlayerWithId(players, player.id)
      requires |inPlay| >= 2
      modifies this`handsWon, this`stacks, this`inPlay, this`turn, this`status, this`states, this`inbox
      ensures Now() == SnapCall(old(Now()), player.id)
    {
      ghost var before := Now();
      CallerKeepsACard(before, player.id);
      var lastTwoCards := inPlay[|inPlay| - 2..];
      var receiver, outcome;
      if lastTwoCards[0].number == lastTwoCards[1].number {
        receiver, outcome := player.id, SnapSuccess;
      } else {
        receiver, outcome := Opponent(players, player.id), SnapFail;
      }
      CollectStack(receiver);
      if |stacks[receiver]| == |deck.cards| {
        GameWon(receiver);
        return;
      }
      SendGameState(outcome, player.name);
      LayFirstCard(player.id);
    }

    /** One round of the agent's decision rule for player `me`, run against this
        authority: it reads what it last received, calls snap when the top two cards
        it was shown end in the same character, then reads again and takes its turn if
        it holds it. What it submits is what SnapAgent.Decide gives for the delivery it
        started from: a snap call it makes is always right, so it never holds the turn
        after one. Every submission is accepted (AgentCallsSnap, AgentTakesTurn), so
        the round never fails. */
    method AgentThink(me: PlayerId) returns (submitted: seq<PlayerAction>)
      requires Valid() && IsStarted(Now()) && me in Ids(players)
      modifies this
      ensures Valid() && IsStarted(Now())
      ensures me in old(inbox) && Readable(old(inbox[me]).state.cardsOnStack)
      ensures submitted == Decide(old(inbox[me]), me)
      ensures CarriedOut(old(Now()), Now(), me, submitted)
    {
      AgentView(Now(), me);
      var latest := inbox[me];
      if latest.availableActions == [] {
        return [];
      }
      if ShowsSnap(latest.state.cardsOnStack) {
        submitted := AgentSnapsThenLooks(me);
      } else {
        submitted := AgentTakesTurnIfMine(me);
      }
    }

    /** Think when the top two cards it was shown match: the agent calls snap, then
        reads what it received next, which after its correct call never gives it the
        turn, so the call is all it submits. */
    method AgentSnapsThenLooks(me: PlayerId) returns (submitted: seq<PlayerAction>)
      requires Valid() && IsStarted(Now()) && me in Ids(players) && me in inbox
      requires Readable(inbox[me].state.cardsOnStack) && ShowsSnap(inbox[me].state.cardsOnStack)
      modifies this
      ensures Valid() && IsStarted(Now())
      ensures submitted == [PlayerAction(CallSnap, me, old(inbox[me]).state.gameStateId)]
      ensures CarriedOut(old(Now()), Now(), me, submitted)
    {
      var action := PlayerAction(CallSnap, me, inbox[me].state.gameStateId);
      var response := AgentCallsSnap(me, action);
      submitted := [action];
      if inbox[me].state.playerIdTurn == Some(me) {
        // A correct call never leaves the caller the turn (AgentCallsSnap), so Think's
        // turn step after a snap call is never taken.
        assert false;
      }
    }

    /** The second half of Think: the agent reads what it last received and takes its
        turn only when that snapshot gives it the turn; otherwise nothing changes. */
    method AgentTakesTurnIfMine(me: PlayerId) returns (taken: seq<PlayerAction>)
      requires Valid() && IsStarted(Now()) && me in Ids(players) && me in inbox
      modifies this
      ensures Valid() && IsStarted(Now())
      ensures taken == (match TurnAction(old(inbox[me]), me) case Some(a) => [a] case None => [])
      ensures CarriedOut(old(Now()), Now(), me, taken)
    {
      if inbox[me].state.playerIdTurn == Some(me) {
        var action, response := AgentTakesTurn(me);
        taken := [action];
      } else {
        taken := [];
      }
    }

    /** The agent's snap call when the top two cards it was shown end in the same
        character: it is accepted, and the snapshot the caller then receives does not
        give it the turn. */
    method AgentCallsSnap(me: PlayerId, action: PlayerAction) returns (response: PlayActionResponse)
      requires Valid() && IsStarted(Now()) && me in Ids(players) && me in inbox
      requires Readable(inbox[me].state.cardsOnStack) && ShowsSnap(inbox[me].state.cardsOnStack)
      requires action == PlayerAction(CallSnap, me, inbox[me].state.gameStateId)
      modifies this
      ensures Valid() && IsStarted(Now()) && response == Accepted
      ensures |old(inPlay)| >= 2 && Conserved(old(Now())) && me in Ids(old(players))
      ensures Now() == SnapCall(old(Now()), me)
      ensures me in inbox && inbox[me].state.playerIdTurn != Some(me)
    {
      ghost var before := Now();
      AgentView(before, me);
      response := PlayAction(action);
      CorrectSnapHandsTurnAway(before, me);
      SnapCallScores(before, me);
      AgentView(Now(), me);
    }

    /** The agent's own turn: it lays a card when that is offered and skips otherwise,
        citing the snapshot it last received; the action is accepted. */
    method AgentTakesTurn(me: PlayerId) returns (action: PlayerAction, response: PlayActionResponse)
      requires Valid() && IsStarted(Now()) && me in Ids(players)
      requires me in inbox && inbox[me].state.playerIdTurn == Some(me)
      modifies this
      ensures Some(action) == TurnAction(old(inbox[me]), me)
      ensures Valid() && IsStarted(Now()) && response == Accepted
      ensures old(turn) == Some(me) && Seated(old(Now())) && me in Ids(old(players))
      ensures action.kind == LayCard ==> old(stacks[me]) != [] && Now() == Lay(old(Now()), me)
      ensures action.kind == SkipGo ==> Now() == Skip(old(Now()), me)
    {
      Received(Now(), me);
      var latest := inbox[me];
      var kind := if LayCard in latest.availableActions then LayCard else SkipGo;
      action := PlayerAction(kind, me, latest.state.gameStateId);
      response := PlayAction(action);
    }
  }
}
