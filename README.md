# MultiplayerCards in Dafny

This project models the card-game domain of MultiplayerCards. It covers:

- cards: rank, suit, id, and the text `ToString` shows them as;
- the factory that builds the 52-card standard deck and numbers it in shuffled order;
- the generic `Game`, which deals a shuffled deck round-robin into each player's first card set;
- the Snap game authority, `SnapGame`. It accepts options and players, deals a new game and publishes numbered snapshots of the piles. It plays LayCard, SkipGo and CallSnap actions, and ends the game when one player holds the whole deck;
- the decision rule (`Think`) of the player that plays Snap against it.

Modules:

- `CardNumberExtensions` and `CardSuitExtensions` hold the ranks and suits and their short names.
- `Cards` holds a card and its text.
- `CardDeckFactory` builds the standard deck.
- `Dealing` defines the round-robin deal once and proves its properties. Both `Game.Start` and `SnapGame.StartGame` deal this way.
- `Games` holds the generic game: `Game` is a class whose `Start` updates its players in place.
- `SnapRules` holds the Snap values and their pure rules: statuses, actions, snapshots, the offering rule and the opponent.
- `SnapTables` holds the authority's whole state as one value, `Table`. Each state change is a function on that value, and what the game promises is proved about those functions:
  - cards are conserved;
  - snapshots are numbered and current;
  - the game ends exactly when one stack holds the deck.
- `Snap` holds the class `SnapGame`. Its fields mirror the fields of the C# `SnapGame`, and every method is proved to change them exactly as its `ensures` state, through a `SnapTables` function where one exists (the deal, publishing, a lay, a skip, a snap call and the win); `InitialiseGame`, the branches of `JoinGame` that do not start the game and `NextPlayersTurn` are stated as direct updates of the fields. The public operations (`InitialiseGame`, `JoinGame`, `StartGame`, `PlayAction`, the `Accept*` branches of `PlayAction` and the agent's `AgentThink`, `AgentCallsSnap` and `AgentTakesTurn`) also keep the invariant `SnapTables.Good`; the field-level helpers they call do not need it. The agent's `Think` round runs against it here.
- `SnapAgent` holds `Think`'s decision rule as pure functions.

Conventions:

- Randomness (the deck shuffles) is a parameter: a permutation of positions.
- A Guid player id is a parameter that must be fresh.
- A C# path that throws an exception on purpose returns a failure value.
- A C# path that would crash by accident (a null dereference, an index out of range, a missing key) is excluded by a `requires`.

## Model

| member | source | states |
|---|---|---|
| CardNumberExtensions.AllNumbersListsEveryRankOnce | MultiplayerCards.Domain/CardDeckFactory.cs:14 | enumerating the ranks gives 13 distinct ranks, every rank occurs, and the i-th has integer value i+1 |
| CardNumberExtensions.DecimalRoundTrip | MultiplayerCards.Domain/CardNumberExtensions.cs:9 | the decimal rendering of a number reads back as that number |
| CardNumberExtensions.ToShortName | MultiplayerCards.Domain/CardNumberExtensions.cs:5-13 | a short name is never empty |
| CardNumberExtensions.NumericShortName | MultiplayerCards.Domain/CardNumberExtensions.cs:7-10 | a rank strictly between Ace and Jack is shown by digits that read back as its integer value |
| CardNumberExtensions.LetterShortName | MultiplayerCards.Domain/CardNumberExtensions.cs:12 | Ace and the court cards are shown by one non-digit letter, the first of the rank's name |
| CardNumberExtensions.ShortNameRoundTrip | MultiplayerCards.Domain/CardNumberExtensions.cs:5-13 | every short name reads back as its rank (the inverse FromShortName) |
| CardNumberExtensions.ShortNameInjective | MultiplayerCards.Domain/CardNumberExtensions.cs:5-13 | two ranks have the same short name exactly when they are the same rank |
| CardNumberExtensions.LastCharDeterminesNumber | MultiplayerCards.Domain/CardNumberExtensions.cs:5-13 | the last character of a short name alone determines the rank |
| CardSuitExtensions.SuitIndex | MultiplayerCards.Domain/CardDeckFactory.cs:12 | every suit sits at its own position of the enumeration order |
| CardSuitExtensions.AllSuitsListsEverySuitOnce | MultiplayerCards.Domain/CardDeckFactory.cs:12 | enumerating the suits gives four distinct suits and every suit occurs |
| CardSuitExtensions.ToChar | MultiplayerCards.Domain/CardSuitExtensions.cs:5-23 | with unicode a suit is shown by one of the four suit glyphs, without it by a capital letter |
| CardSuitExtensions.ToCharRoundTrip | MultiplayerCards.Domain/CardSuitExtensions.cs:5-23 | in both modes a suit character reads back as its suit (the inverse FromChar) |
| CardSuitExtensions.ToCharInjective | MultiplayerCards.Domain/CardSuitExtensions.cs:5-23 | in both modes two suits get the same character exactly when they are the same suit |
| CardSuitExtensions.PlainCharIsInitial | MultiplayerCards.Domain/CardSuitExtensions.cs:22 | without unicode a suit is shown by the capital first letter of its name |
| Cards.NewCard | MultiplayerCards.Domain/Card.cs:5-15 | a new card has the given rank and suit and the id -1 |
| Cards.ToString | MultiplayerCards.Domain/Card.cs:17-20 | a rendered card is two or three characters long and starts with the unicode character of its suit |
| Cards.ToStringRoundTrip | MultiplayerCards.Domain/Card.cs:17-20 | a rendered card parses back to its rank and suit |
| Cards.ToStringInjective | MultiplayerCards.Domain/Card.cs:17-20 | two cards render alike exactly when they agree on rank and suit |
| Cards.SameNumberSameSuffix | MultiplayerCards.Domain/Card.cs:19 | the one-character suit symbol is followed by the rank's short name, the same for every card of that rank |
| Cards.LastCharMatchesIffSameNumber | MultiplayerCards.Domain/Games/Snap/SnapGame.cs:517-519 | two rendered cards end in the same character exactly when they have the same rank |
| CardDeckFactory.StandardOrderHasEveryCardOnce | MultiplayerCards.Domain/CardDeckFactory.cs:12-18 | the construction order has 4 * 13 = 52 positions, and every suit and rank pair occurs at exactly one of them |
| CardDeckFactory.StandardCard | MultiplayerCards.Domain/CardDeckFactory.cs:12-18 | position i of the construction order holds suit i / 13 and rank i mod 13 + 1, with no id assigned yet |
| CardDeckFactory.ShuffledIdsArePermutation | MultiplayerCards.Domain/CardDeckFactory.cs:20-25 | numbering the cards through a shuffled view gives every card a distinct id in 0 .. 51 |
| CardDeckFactory.CreateStandardDeck | MultiplayerCards.Domain/CardDeckFactory.cs:8-28 | 52 cards, the i-th with the suit and rank of construction position i; the k-th card of the shuffled view has id k; the ids are in range and distinct |
| CardDeckFactory.ShuffledCards | MultiplayerCards.Domain/Games/Snap/SnapGame.cs:101 | the shuffled view lists the deck's card at each position of the shuffle, in shuffle order |
| CardDeckFactory.DistinctCounts | MultiplayerCards.Domain/CardDeckFactory.cs:20-25 | in a list without repeats every card occurs exactly once |
| CardDeckFactory.ShuffledCardsAreTheDeck | MultiplayerCards.Domain/Games/Snap/SnapGame.cs:101 | a shuffled view of a deck of distinct cards holds exactly the deck's cards |
| Dealing.Dealt | MultiplayerCards.Domain/Game.cs:21-33 | the hand player p gets when the cards are dealt round-robin over n players is never longer than the cards dealt |
| Dealing.Seat | MultiplayerCards.Domain/Game.cs:28-32 | the wrapping counter always names an existing player |
| Dealing.DealtSnoc | MultiplayerCards.Domain/Game.cs:22-33 | dealing one more card extends only the hand of the player the counter names |
| Dealing.SeatAndRounds | MultiplayerCards.Domain/Game.cs:28-32 | after k cards the counter's full rounds times n plus its position give k |
| Dealing.SeatIsMod | MultiplayerCards.Domain/Games/Snap/SnapGame.cs:112 | the wrapping counter of Game.Start equals the card count mod n used by StartGame |
| Dealing.DealtLength | MultiplayerCards.Domain/Game.cs:22-33 | a player gets one card per full round plus one if the counter has passed it in the current round |
| Dealing.HandSize | MultiplayerCards.Domain/Games/Snap/SnapGame.cs:109-116 | of k cards dealt to n players, player p gets k / n, plus one when p < k mod n |
| Dealing.HandsBalanced | MultiplayerCards.Domain/Games/Snap/SnapGame.cs:109-116 | hand sizes differ by at most one, and an earlier player never has fewer cards |
| Dealing.DealtAt | MultiplayerCards.Domain/Game.cs:22-33 | card j of player p's hand is card j * n + p of the deal |
| Dealing.DealtPrefix | MultiplayerCards.Domain/Game.cs:22-33 | dealing a prefix of the cards gives a prefix of every hand |
| Dealing.CardGoesTo | MultiplayerCards.Domain/Games/Snap/SnapGame.cs:110-116 | card k lands in player k mod n's hand at position k / n |
| Dealing.TwoHandsConserveCards | MultiplayerCards.Domain/Games/Snap/SnapGame.cs:103-116 | with two players, the two hands together hold exactly the dealt cards |
| Dealing.TotalDealtSnoc | MultiplayerCards.Domain/Game.cs:22-33 | one more card adds one card in total to players 0 .. m-1 exactly when it lands on one of them |
| Dealing.NothingDealt | MultiplayerCards.Domain/Game.cs:22-33 | with no cards to deal, no player receives any |
| Dealing.AllCardsDealt | MultiplayerCards.Domain/Game.cs:16-34 | for any number of players, the hands together hold as many cards as were dealt |
| Games.AddToFirstSet | MultiplayerCards.Domain/Game.cs:26 | cards are appended to the player's first card set; the player and the other sets are unchanged |
| Games.AddNothing | MultiplayerCards.Domain/Game.cs:26 | adding no cards leaves the player unchanged |
| Games.AddInTwoSteps | MultiplayerCards.Domain/Game.cs:26 | adding a and then b equals adding a followed by b |
| Games.DealOneMore | MultiplayerCards.Domain/Game.cs:25-26 | one more card changes only the first set of the player it lands on |
| Games.Game.constructor | MultiplayerCards.Domain/Game.cs:9-14 | one game player per player, in order, each with one empty "Hand" set held in hand; the deck is kept |
| Games.Game.Start | MultiplayerCards.Domain/Game.cs:16-34 | the deck's cards, in the shuffled order, are dealt so that each player's first set gains exactly its round-robin share, in order; the hands together receive as many cards as the deck holds; nothing else changes |
| SnapRules.AvailableActions | MultiplayerCards.Domain/Games/Snap/SnapGame.cs:152-167 | CallSnap is offered exactly when more than one card is in play; LayCard exactly to the turn holder with cards; SkipGo exactly to the turn holder without cards |
| SnapRules.Ids | MultiplayerCards.Domain/Games/Snap/SnapGame.cs:178 | every joined player's id is a known id |
| SnapRules.Opponent | MultiplayerCards.Domain/Games/Snap/SnapGame.cs:341-342 | the opponent is a joined player other than the given one |
| SnapRules.OpponentOfOpponent | MultiplayerCards.Domain/Games/Snap/SnapGame.cs:336-339 | passing the turn twice gives it back; the two ids are the player and its opponent |
| SnapRules.PlayerWithId | MultiplayerCards.Domain/Games/Snap/SnapGame.cs:178 | the player found for an id is a joined player with that id |
| SnapRules.MoveFirstTo | MultiplayerCards.Domain/Games/Snap/SnapGame.cs:200 | the first card of the source goes to the end of the target and the rest of the source stays in order; no card is created or lost |
| SnapRules.MoveAllTo | MultiplayerCards.Domain/Games/Snap/SnapGame.cs:264 | the source, in its own order, follows the unchanged target, and the source is left empty; no card is created or lost |
| SnapRules.Uniform | MultiplayerCards.Domain/Games/Snap/SnapGame.cs:108 | one entry per joined player, each with the same value |
| SnapRules.ByName | MultiplayerCards.Domain/Games/Snap/SnapGame.cs:140 | per-player values re-keyed by name; with distinct names each player's value is kept |
| SnapRules.CardsInHand | MultiplayerCards.Domain/Games/Snap/SnapGame.cs:139 | one count per player name; with distinct names it is the size of that player's stack |
| SnapRules.RenderAll | MultiplayerCards.Domain/Games/Snap/SnapGame.cs:141 | the in-play stack rendered card by card, in order, each entry at least two characters |
| SnapRules.IdsOfTwo | MultiplayerCards.Domain/Games/Snap/SnapGame.cs:341-342 | the ids of two players are exactly those two |
| SnapRules.Deliveries | MultiplayerCards.Domain/Games/Snap/SnapGame.cs:152-169 | every joined player, and only they, receives the snapshot with the actions the offering rule gives it |
| SnapRules.WholeDeckLeavesNothingElse | MultiplayerCards.Domain/Games/Snap/SnapGame.cs:268 | when the piles together are the deck, one pile holds the whole deck exactly when the others are empty |
| SnapTables.Good | MultiplayerCards.Domain/Games/Snap/SnapGame.cs:19-29 | the invariant: at most two players with distinct ids and options present exactly once initialised; before the deal nothing is published; after it the stacks and the in-play stack together hold exactly the deck, a Finished game has no turn holder and one stack holding the whole deck, the snapshots are numbered from 0 and every player last received the latest one |
| SnapTables.FreshIsGood | MultiplayerCards.Domain/Games/Snap/SnapGame.cs:19-29 | a new authority satisfies the invariant and is not started |
| SnapTables.Publish | MultiplayerCards.Domain/Games/Snap/SnapGame.cs:131-170 | exactly one snapshot is appended, with id equal to the number before it and the given action and name; it shows the current piles, counters and turn; everyone receives it; nothing else changes |
| SnapTables.PublishIsGood | MultiplayerCards.Domain/Games/Snap/SnapGame.cs:131-170 | publishing a dealt game whose piles are in place restores the invariant |
| SnapTables.Deal | MultiplayerCards.Domain/Games/Snap/SnapGame.cs:97-123 | status Playing, the new deck, one stack and one zero counter per player, one card face up and the first player's turn; nothing else changes |
| SnapTables.DealByHands | MultiplayerCards.Domain/Games/Snap/SnapGame.cs:107-116 | any map holding the two round-robin hands under the two ids is the deal |
| SnapTables.StartKeepsTheDeck | MultiplayerCards.Domain/Games/Snap/SnapGame.cs:100-120 | the two dealt hands plus the face-up card are exactly the deck |
| SnapTables.DealPlacesCards | MultiplayerCards.Domain/Games/Snap/SnapGame.cs:100-123 | after the deal every card of the new deck is in exactly one pile and the piles are in place |
| SnapTables.DealHoldsTheDeck | MultiplayerCards.Domain/Games/Snap/SnapGame.cs:100-120 | the dealt stacks and the in-play stack together hold exactly the deck |
| SnapTables.DealSizes | MultiplayerCards.Domain/Games/Snap/SnapGame.cs:103-120 | the first player gets 26 cards, the second 25, and one card is face up |
| SnapTables.StartIsGood | MultiplayerCards.Domain/Games/Snap/SnapGame.cs:85-126 | starting a ready two-player game gives a valid game whose only snapshot has id 0 |
| SnapTables.LaidDown | MultiplayerCards.Domain/Games/Snap/SnapGame.cs:200-203 | the player's first card goes on top of the in-play stack and the turn passes to the other player |
| SnapTables.Lay | MultiplayerCards.Domain/Games/Snap/SnapGame.cs:199-206 | a lay publishes exactly one snapshot |
| SnapTables.Receiver | MultiplayerCards.Domain/Games/Snap/SnapGame.cs:252-291 | the caller collects exactly when the top two cards have the same number, otherwise its opponent does |
| SnapTables.OneMoreHand | MultiplayerCards.Domain/Games/Snap/SnapGame.cs:259 | one player's count goes up by one and the others are unchanged |
| SnapTables.Collect | MultiplayerCards.Domain/Games/Snap/SnapGame.cs:259-265 | the receiver scores one hand, takes the in-play stack under its own in order, and gets the turn |
| SnapTables.Win | MultiplayerCards.Domain/Games/Snap/SnapGame.cs:325-334 | status Finished, nobody's turn, and exactly one more snapshot |
| SnapTables.CallerKeepsACard | MultiplayerCards.Domain/Games/Snap/SnapGame.cs:306-308 | when a snap call does not end the game, the caller still has a card to lay |
| SnapTables.CollectKeepsCards | MultiplayerCards.Domain/Games/Snap/SnapGame.cs:264-268 | collecting moves cards only, and leaves the other player a card unless the game is won |
| SnapTables.LayMovesOneCard | MultiplayerCards.Domain/Games/Snap/SnapGame.cs:200 | laying a card keeps the cards held |
| SnapTables.LayIsGood | MultiplayerCards.Domain/Games/Snap/SnapGame.cs:188-212 | a lay by the turn holder keeps the invariant: only its first card moves to the top, the turn passes, and one snapshot reports the lay under its name |
| SnapTables.Skip | MultiplayerCards.Domain/Games/Snap/SnapGame.cs:214-245 | a skip changes only the turn, which passes to the other player, and appends exactly one snapshot describing the new state |
| SnapTables.SkipIsGood | MultiplayerCards.Domain/Games/Snap/SnapGame.cs:214-245 | a skip by the turn holder keeps the invariant: no card moves, the turn passes, and one snapshot reports the skip under its name |
| SnapTables.SnapCallIsGood | MultiplayerCards.Domain/Games/Snap/SnapGame.cs:247-320 | a snap call keeps the invariant, including card conservation |
| SnapTables.SnapCall | MultiplayerCards.Domain/Games/Snap/SnapGame.cs:247-320 | a snap call keeps the players, the deck and the options and always publishes at least one snapshot |
| SnapTables.SnapCallScores | MultiplayerCards.Domain/Games/Snap/SnapGame.cs:247-304 | the receiver scores exactly one hand; the players and the deck are unchanged |
| SnapTables.SnapCallWins | MultiplayerCards.Domain/Games/Snap/SnapGame.cs:263-301 | a call that gives the receiver the whole deck ends the game, with nobody's turn, nothing in play and one final snapshot crediting the receiver |
| SnapTables.SnapCallPlaysOn | MultiplayerCards.Domain/Games/Snap/SnapGame.cs:277-314 | otherwise the caller lays its first card on the emptied stack, and the turn passes from the receiver to the other player |
| SnapTables.SnapCallReports | MultiplayerCards.Domain/Games/Snap/SnapGame.cs:277-314 | when play goes on, two snapshots follow under the caller's name: SnapSuccess or SnapFail, then CardLaid |
| SnapTables.SnapCallShowsCollection | MultiplayerCards.Domain/Games/Snap/SnapGame.cs:259-277 | the first of those snapshots shows the collected piles, the new score, nothing in play and the receiver's turn |
| SnapTables.CorrectSnapHandsTurnAway | MultiplayerCards.Domain/Games/Snap/SnapGame.cs:254-314 | after a correct snap call the caller never holds the turn |
| SnapTables.Received | MultiplayerCards.Domain/Games/Snap/SnapGame.cs:152-169 | a player's last delivery is the latest snapshot with the actions the offering rule gives it for the current piles and turn |
| SnapTables.OverExactlyWhenOneHoldsAll | MultiplayerCards.Domain/Games/Snap/SnapGame.cs:267-275 | a dealt game is Finished exactly when one player's stack holds the whole deck |
| SnapAgent.TurnAction | MultiplayerCards.Domain/Games/Snap/SnapGame.cs:533-558 | on its own turn the agent lays when LayCard is offered and otherwise skips, citing the snapshot id; off turn it does nothing |
| SnapAgent.Decide | MultiplayerCards.Domain/Games/Snap/SnapGame.cs:510-559 | at most one action, by the agent, citing the snapshot id; nothing when nothing is offered; a snap call when the top two cards end alike; otherwise its turn action exactly when it holds the turn |
| SnapAgent.RenderedIsReadable | MultiplayerCards.Domain/Games/Snap/SnapGame.cs:517 | every card the authority renders has a last character to compare |
| SnapAgent.ShowsSnapIffSameNumber | MultiplayerCards.Domain/Games/Snap/SnapGame.cs:515-519 | the agent's last-character test holds exactly when the top two cards have the same number |
| SnapAgent.TopTwoRendered | MultiplayerCards.Domain/Games/Snap/SnapGame.cs:517 | the top two rendered entries are the renderings of the top two cards |
| SnapAgent.DecisionsAreOffered | MultiplayerCards.Domain/Games/Snap/SnapGame.cs:533-549 | every action the agent decides on was offered to it; with cards, on its turn and with no snap, it lays |
| Snap.DealRoundRobin | MultiplayerCards.Domain/Games/Snap/SnapGame.cs:107-116 | the loop gives each player exactly its round-robin share of the cards |
| Snap.AgentView | MultiplayerCards.Domain/Games/Snap/SnapGame.cs:515-519 | in a valid dealt game a player's delivery is the latest snapshot, which the agent can read, and the agent's snap test agrees with the authority's |
| Snap.SnapGame.constructor | MultiplayerCards.Domain/Games/Snap/SnapGame.cs:19-29 | not initialised, no players, nothing published, invariant holds |
| Snap.SnapGame.InitialiseGame | MultiplayerCards.Domain/Games/Snap/SnapGame.cs:31-42 | missing options fail, then a status other than NotInitialised fails, both leaving the game unchanged; otherwise the options are stored and the status becomes ReadyToStart |
| Snap.SnapGame.JoinGame | MultiplayerCards.Domain/Games/Snap/SnapGame.cs:49-83 | refused in a wrong status or when full, changing nothing; otherwise the player is appended, and the second player makes the game ReadyToStart and, with auto-start, starts it |
| Snap.SnapGame.StartGame | MultiplayerCards.Domain/Games/Snap/SnapGame.cs:85-126 | fails unchanged in a wrong status or with a wrong player count; otherwise builds the standard deck, deals it and publishes snapshot 0 as a card laid by the dealer |
| Snap.SnapGame.DealDeck | MultiplayerCards.Domain/Games/Snap/SnapGame.cs:97-123 | the fields become exactly the deal of the new deck |
| Snap.SnapGame.SendGameState | MultiplayerCards.Domain/Games/Snap/SnapGame.cs:131-170 | the fields change exactly as publishing says |
| Snap.SnapGame.NextPlayersTurn | MultiplayerCards.Domain/Games/Snap/SnapGame.cs:336-339 | the turn passes to the opponent of its holder |
| Snap.SnapGame.GameWon | MultiplayerCards.Domain/Games/Snap/SnapGame.cs:325-334 | the fields change exactly as winning says |
| Snap.SnapGame.LayFirstCard | MultiplayerCards.Domain/Games/Snap/SnapGame.cs:199-206 | the fields change exactly as a lay says |
| Snap.SnapGame.CollectStack | MultiplayerCards.Domain/Games/Snap/SnapGame.cs:259-265 | the fields change exactly as collecting says |
| Snap.SnapGame.PlayAction | MultiplayerCards.Domain/Games/Snap/SnapGame.cs:172-323 | a stale action, a lay or skip out of turn, and a skip with cards left are refused and change nothing; otherwise the action is accepted and takes effect as lay, skip or snap call; the invariant holds either way |
| Snap.SnapGame.AcceptLay | MultiplayerCards.Domain/Games/Snap/SnapGame.cs:188-212 | an accepted lay keeps the invariant and changes the state as a lay says |
| Snap.SnapGame.AcceptSkip | MultiplayerCards.Domain/Games/Snap/SnapGame.cs:214-245 | an accepted skip keeps the invariant and changes the state as a skip says |
| Snap.SnapGame.PassTurn | MultiplayerCards.Domain/Games/Snap/SnapGame.cs:235-239 | the fields change exactly as a skip says |
| Snap.SnapGame.AcceptSnap | MultiplayerCards.Domain/Games/Snap/SnapGame.cs:247-320 | a snap call keeps the invariant and changes the state as a snap call says |
| Snap.SnapGame.JudgeSnap | MultiplayerCards.Domain/Games/Snap/SnapGame.cs:247-320 | the fields change exactly as a snap call says |
| Snap.SnapGame.AgentThink | MultiplayerCards.Domain/Games/Snap/SnapGame.cs:510-559 | one round of Think against the authority submits exactly what the decision rule gives for the delivery it started from; the new state is the old one when nothing is submitted, and otherwise the snap call, lay or skip of the old state; the game stays valid |
| Snap.SnapGame.AgentSnapsThenLooks | MultiplayerCards.Domain/Games/Snap/SnapGame.cs:515-558 | when the top two cards match, the agent submits one snap call and nothing else, and the state becomes the snap call of the old one |
| Snap.SnapGame.AgentTakesTurnIfMine | MultiplayerCards.Domain/Games/Snap/SnapGame.cs:533-558 | the agent submits its turn action exactly when the snapshot it holds gives it the turn, and otherwise changes nothing |
| Snap.SnapGame.AgentCallsSnap | MultiplayerCards.Domain/Games/Snap/SnapGame.cs:515-530 | the agent's snap call is accepted, the new state is the snap call of the old one, and the caller does not hold the turn in the snapshot it then receives |
| Snap.SnapGame.AgentTakesTurn | MultiplayerCards.Domain/Games/Snap/SnapGame.cs:533-558 | the agent's turn action is the one the decision rule gives, it is accepted, and the new state is the lay or skip of the old one |

## Left out

- The player's polling loop (`StartGamePlayingLoopAsync`, `StopGamePlayingLoop`), its sleeps and its continue flag are not modelled. `AgentThink` is one run of `Think`, made whenever a player has a new snapshot with some action offered.
- Concurrency is not modelled. The C# `SnapGame` has no lock around `PlayAction`, and the model treats each call as atomic.
- Console output is not modelled, and neither is the text of `SnapGameState.ToString` or `Game.ToDebugString`.
- The free-text failure reasons are replaced by enumerations: `SetupError`, `JoinFailure` and `PlayFailure`.
- The command-line host program is not part of this model.
- The random shuffles are parameters:
  - `Deck.GetShuffledCards` and the list `Shuffle` extension are not part of this model;
  - each shuffle is given as a permutation of positions;
  - `Game.Start` deals the deck in the order of a given permutation of its positions.
- `Guid.NewGuid` is a parameter, `newId`, that must differ from every joined player's id.
- `PlayerAction` is a closed set of three kinds. The "unknown action type" exception and the null-argument checks of `JoinGame` and `PlayAction` (`player == null`, `action == null`) have no counterpart. The null check on the options of `InitialiseGame` is modelled, as the failure `OptionsMissing`.
- `SnapGameOptions.NumbersInUse` is carried but never read, as in the C# `SnapGame`.
- Crash paths are preconditions:
  - `StartGame` requires distinct player names, and so does `JoinGame` when the join starts the game, because the snapshot dictionaries keyed by name throw on a duplicate;
  - `PlayAction` requires a started game, because before the deal the snapshot list is empty and reading its last entry throws;
  - `PlayAction` requires a joined player;
  - a lay or skip must have a turn holder;
  - a lay by the turn holder needs a card to lay;
  - a snap call needs at least two cards in play.
- Each player's `LatestGameState` and `AvailableActions` are the field `inbox` of the authority. `ReceiveGameState` is the delivery made inside `SendGameState`.
- `SnapTables.Deal`, `SnapTables.Held` and the conservation lemmas are written for exactly two players. This is the only count `StartGame` accepts, because MinPlayers and MaxPlayers are both 2. The round-robin deal itself (`Dealing`, `Snap.DealRoundRobin`, `Games.Game.Start`) is proved for any number of players.
- Snap.SnapGame.AgentThink: it does not return the responses. `Think` throws when a response fails, and here every response is proved to be accepted instead, in `AgentCallsSnap` and `AgentTakesTurn`.
- The `CardNumbers` and `CardSuits` enums are not part of this model. Their declarations are taken to be:
  - Ace = 1, Two = 2 … Ten = 10, Jack = 11, Queen = 12, King = 13, matching the comparison and the integer rendering in `ToShortName`;
  - Club, Diamond, Spade, Heart, in the order of the switch in `ToChar`. Only the construction order of the deck depends on this.
- `CardSet.MoveFirstTo` and `CardSet.MoveAllTo` are not part of this model. They are modelled from their uses in `PlayAction`: they move a card or cards to the end of the target, and the top of a stack is its last card.
- `CardSet` names and states in `SnapGame` are not modelled, because nothing reads them. The generic `Games.CardSet` keeps both.
