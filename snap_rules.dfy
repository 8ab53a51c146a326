/** The values the Snap authority works with: lifecycle, actions, snapshots, responses,
    and the pure rules it applies (who may do what, who the opponent is, how cards move). */
module SnapRules {

  import opened Wrappers
  import opened Cards

  /** A player's identity (a Guid in the C# `SnapGamePlayer`); only equality matters. */
  type PlayerId = nat

  datatype GameStatus = NotInitialised | WaitingForPlayers | ReadyToStart | Playing | Finished

  datatype SnapGameOptions = SnapGameOptions(numbersInUse: int, autoStartWhenMinPlayersReached: bool)

  /** The options a caller gets by default: the full set of 13 numbers, auto-start on. */
  const DefaultOptions: SnapGameOptions := SnapGameOptions(13, true)

  const MinPlayers: nat := 2
  const MaxPlayers: nat := 2

  /** The name the first snapshot gives as the author of the deal. */
  const DealerName: string := "Dealer"

  /** A joined player as the authority knows it. */
  datatype SnapGamePlayer = SnapGamePlayer(id: PlayerId, name: string)

  datatype ActionKind = LayCard | SkipGo | CallSnap

  /** An action a player submits: what, by whom, and the id of the last snapshot it saw. */
  datatype PlayerAction = PlayerAction(kind: ActionKind, playerId: PlayerId, lastGameStateId: int)

  /** What produced a snapshot. */
  datatype SnapAction = CardLaid | SnapSuccess | SnapFail | SkippedGo

  /** A published snapshot of the game. */
  datatype SnapGameState = SnapGameState(
    gameStateId: int,
    lastAction: SnapAction,
    lastActionByName: string,
    playerNameToCardsInHand: map<string, nat>,
    playerNameToHandsWon: map<string, nat>,
    cardsOnStack: seq<string>,
    playerIdTurn: Option<PlayerId>)

  /** What a player last received: the snapshot and the actions it may now submit. */
  datatype Delivery = Delivery(state: SnapGameState, availableActions: seq<ActionKind>)

  /** Why an operation that throws in the C# `SnapGame` did so. */
  datatype SetupError = OptionsMissing | WrongStatus | WrongPlayerCount

  datatype JoinFailure = StatusForbidsJoin | GameFull

  datatype JoinGameResponse = Joined(gamePlayer: SnapGamePlayer) | JoinRefused(reason: JoinFailure)

  /** Why a submitted action was refused. */
  datatype PlayFailure = OutOfSync | NotYourTurn | SkipWithCardsLeft

  datatype PlayActionResponse = Accepted | Rejected(reason: PlayFailure)

  /** The actions offered to one player: every player may call snap once the in-play
      stack holds more than one card, and the player whose turn it is may also lay a
      card when it has one, or else skip its go. */
  function AvailableActions(isTurnHolder: bool, hasCards: bool, inPlayCount: nat): (r: seq<ActionKind>)
    ensures CallSnap in r <==> inPlayCount > 1
    ensures LayCard in r <==> isTurnHolder && hasCards
    ensures SkipGo in r <==> isTurnHolder && !hasCards
    ensures !isTurnHolder ==> r == [] || r == [CallSnap]
  {
    var anyone := if inPlayCount > 1 then [CallSnap] else [];
    if isTurnHolder then anyone + (if hasCards then [LayCard] else [SkipGo]) else anyone
  }

  ghost predicate TwoPlayers(players: seq<SnapGamePlayer>)
  {
    |players| == 2 && players[0].id != players[1].id
  }

  /** The ids of the joined players. */
  function Ids(players: seq<SnapGamePlayer>): (ids: set<PlayerId>)
    ensures forall i :: 0 <= i < |players| ==> players[i].id in ids
  {
    if players == [] then {} else Ids(players[..|players| - 1]) + {players[|players| - 1].id}
  }

  /** The one other joined player. */
  function Opponent(players: seq<SnapGamePlayer>, p: PlayerId): (o: PlayerId)
    requires TwoPlayers(players) && p in Ids(players)
    ensures o in Ids(players) && o != p
  {
    if players[0].id == p then players[1].id else players[0].id
  }

  /** With two players, passing the turn twice gives it back. */
  lemma OpponentOfOpponent(players: seq<SnapGamePlayer>, p: PlayerId)
    requires TwoPlayers(players) && p in Ids(players)
    ensures Opponent(players, Opponent(players, p)) == p
    ensures Ids(players) == {p, Opponent(players, p)}
  {
    IdsOfTwo(players);
  }

  /** The joined player with id p. */
  function PlayerWithId(players: seq<SnapGamePlayer>, p: PlayerId): (q: SnapGamePlayer)
    requires p in Ids(players)
    ensures q in players && q.id == p
  {
    var last := players[|players| - 1];
    if last.id == p then last else PlayerWithId(players[..|players| - 1], p)
  }

  /** Moves the first card of `source` to the end of `target`; `source` must not be empty.
      No card is created or lost. */
  function MoveFirstTo(source: seq<Card>, target: seq<Card>): (r: (seq<Card>, seq<Card>))
    requires source != []
    ensures |r.0| == |source| - 1 && r.1 == target + [source[0]]
    ensures r.0 == source[1..]
    ensures multiset(r.0) + multiset(r.1) == multiset(source) + multiset(target)
  {
    assert source == [source[0]] + source[1..];
    (source[1..], target + [source[0]])
  }

  /** Moves every card of `source`, in order, to the end of `target`, leaving `source` empty. */
  function MoveAllTo(source: seq<Card>, target: seq<Card>): (r: (seq<Card>, seq<Card>))
    ensures r.0 == [] && |r.1| == |target| + |source| && r.1[..|target|] == target
    ensures r.1[|target|..] == source
    ensures multiset(r.0) + multiset(r.1) == multiset(source) + multiset(target)
  {
    ([], target + source)
  }

  /** Every stack held by a joined player, by player. */
  ghost predicate HasStacks<V>(players: seq<SnapGamePlayer>, m: map<PlayerId, V>)
  {
    forall i :: 0 <= i < |players| ==> players[i].id in m
  }

  /** No two joined players share an id. */
  ghost predicate DistinctIds(players: seq<SnapGamePlayer>)
  {
    forall i, j :: 0 <= i < j < |players| ==> players[i].id != players[j].id
  }

  ghost predicate DistinctNames(players: seq<SnapGamePlayer>)
  {
    forall i, j :: 0 <= i < j < |players| ==> players[i].name != players[j].name
  }

  /** One entry per joined player, each holding `v`. */
  function Uniform<V>(players: seq<SnapGamePlayer>, v: V): (m: map<PlayerId, V>)
    ensures m.Keys == Ids(players)
    ensures forall id :: id in m ==> m[id] == v
  {
    if players == [] then map[] else Uniform(players[..|players| - 1], v)[players[|players| - 1].id := v]
  }

  /** The names of the joined players. */
  function Names(players: seq<SnapGamePlayer>): set<string>
  {
    if players == [] then {} else Names(players[..|players| - 1]) + {players[|players| - 1].name}
  }

  /** A per-player value re-keyed by player name, the way a snapshot reports it. */
  function ByName<V>(players: seq<SnapGamePlayer>, values: map<PlayerId, V>): (m: map<string, V>)
    requires HasStacks(players, values)
    ensures m.Keys == Names(players)
    ensures forall i :: 0 <= i < |players| ==> players[i].name in m
    ensures DistinctNames(players) ==>
      forall i :: 0 <= i < |players| ==> m[players[i].name] == values[players[i].id]
  {
    if players == [] then map[]
    else
      var p := players[|players| - 1];
      ByName(players[..|players| - 1], values)[p.name := values[p.id]]
  }

  /** Card counts by player name, as a snapshot reports them. */
  function CardsInHand(players: seq<SnapGamePlayer>, stacks: map<PlayerId, seq<Card>>): (m: map<string, nat>)
    requires HasStacks(players, stacks)
    ensures m.Keys == Names(players)
    ensures forall i :: 0 <= i < |players| ==> players[i].name in m
    ensures DistinctNames(players) ==>
      forall i :: 0 <= i < |players| ==> m[players[i].name] == |stacks[players[i].id]|
  {
    if players == [] then map[]
    else
      var p := players[|players| - 1];
      CardsInHand(players[..|players| - 1], stacks)[p.name := |stacks[p.id]|]
  }

  /** The in-play stack as a snapshot shows it: each card rendered, in order. */
  function RenderAll(cards: seq<Card>): (r: seq<string>)
    ensures |r| == |cards|
    ensures forall i :: 0 <= i < |cards| ==> r[i] == ToString(cards[i]) && |r[i]| >= 2
  {
    if cards == [] then []
    else RenderAll(cards[..|cards| - 1]) + [ToString(cards[|cards| - 1])]
  }

  /** Ids of exactly two joined players. */
  lemma IdsOfTwo(players: seq<SnapGamePlayer>)
    requires |players| == 2
    ensures Ids(players) == {players[0].id, players[1].id}
  {
    assert Ids(players) == Ids(players[..1]) + {players[1].id};
    assert players[..1][..0] == [];
    assert Ids(players[..1]) == {players[0].id};
  }

  /** The snapshot `s` reports the given piles, counters and turn the way the
      authority publishes them: card counts and hands won by player name, the
      in-play stack rendered card by card, and the id of the player whose turn it is. */
  ghost predicate Shows(
    s: SnapGameState, players: seq<SnapGamePlayer>, stacks: map<PlayerId, seq<Card>>,
    won: map<PlayerId, nat>, inPlay: seq<Card>, turn: Option<PlayerId>)
    requires HasStacks(players, stacks) && HasStacks(players, won)
  {
    && s.playerNameToCardsInHand == CardsInHand(players, stacks)
    && s.playerNameToHandsWon == ByName(players, won)
    && s.cardsOnStack == RenderAll(inPlay)
    && s.playerIdTurn == turn
  }

  /** What the player with id `p` receives with `state`: the snapshot and the actions
      offered to it. */
  function DeliveryFor(
    stacks: map<PlayerId, seq<Card>>, inPlay: seq<Card>, turn: Option<PlayerId>,
    state: SnapGameState, p: PlayerId): Delivery
    requires p in stacks
  {
    Delivery(state, AvailableActions(turn == Some(p), stacks[p] != [], |inPlay|))
  }

  /** What every joined player receives with a snapshot. */
  function Deliveries(
    players: seq<SnapGamePlayer>, stacks: map<PlayerId, seq<Card>>, inPlay: seq<Card>,
    turn: Option<PlayerId>, state: SnapGameState): (m: map<PlayerId, Delivery>)
    requires HasStacks(players, stacks)
    ensures m.Keys == Ids(players)
    ensures DistinctIds(players) ==> forall i :: 0 <= i < |players| ==>
      m[players[i].id] == DeliveryFor(stacks, inPlay, turn, state, players[i].id)
  {
    if players == [] then map[]
    else
      var p := players[|players| - 1];
      Deliveries(players[..|players| - 1], stacks, inPlay, turn, state)[p.id := DeliveryFor(stacks, inPlay, turn, state, p.id)]
  }

  /** Conservation with one pile holding the whole deck: every other pile is empty. */
  lemma WholeDeckLeavesNothingElse(a: seq<Card>, b: seq<Card>, c: seq<Card>, deck: seq<Card>)
    requires multiset(a) + multiset(b) + multiset(c) == multiset(deck)
    ensures |a| == |deck| <==> b == [] && c == []
  {
    assert |multiset(a) + multiset(b) + multiset(c)| == |a| + |b| + |c|;
  }
}
