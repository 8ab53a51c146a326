/** The decision rule of a Snap player: given the last snapshot and the actions offered
    with it, which actions it submits to the authority. */
module SnapAgent {

  import opened Wrappers
  import opened Cards
  import opened SnapRules

  /** Every rendered card on the stack has a last character to compare. */
  ghost predicate Readable(stack: seq<string>)
  {
    forall i :: 0 <= i < |stack| ==> stack[i] != []
  }

  /** The agent's snap test: at least two cards on the stack and the top two rendered
      cards end in the same character. */
  predicate ShowsSnap(stack: seq<string>)
    requires Readable(stack)
  {
    |stack| >= 2 && LastChar(stack[|stack| - 2]) == LastChar(stack[|stack| - 1])
  }

  /** On its own turn the agent lays a card when that is offered, and skips otherwise;
      off turn it submits nothing. */
  function TurnAction(d: Delivery, me: PlayerId): (r: Option<PlayerAction>)
    ensures r.Some? <==> d.state.playerIdTurn == Some(me)
    ensures r.Some? ==> r.value.playerId == me && r.value.lastGameStateId == d.state.gameStateId
    ensures r.Some? ==> (r.value.kind == LayCard <==> LayCard in d.availableActions)
    ensures r.Some? ==> r.value.kind != CallSnap
  {
    if d.state.playerIdTurn == Some(me) then
      Some(PlayerAction(if LayCard in d.availableActions then LayCard else SkipGo, me, d.state.gameStateId))
    else None
  }

  /** The actions the agent submits on receiving `d`, in order. It does nothing when no
      action is offered. When the top two cards match it calls snap, citing the
      snapshot's id; the authority then hands the turn away before the agent looks at
      the turn again, so a snap call is all it submits (proved for the authority in
      Snap.SnapGame.AgentThink). Otherwise it takes its turn, if it has one. */
  function Decide(d: Delivery, me: PlayerId): (r: seq<PlayerAction>)
    requires Readable(d.state.cardsOnStack)
    ensures |r| <= 1
    ensures forall a :: a in r ==> a.playerId == me && a.lastGameStateId == d.state.gameStateId
    ensures d.availableActions == [] ==> r == []
    ensures d.availableActions != [] && ShowsSnap(d.state.cardsOnStack) ==> r == [PlayerAction(CallSnap, me, d.state.gameStateId)]
    ensures d.availableActions != [] && !ShowsSnap(d.state.cardsOnStack) ==>
      (r != [] <==> d.state.playerIdTurn == Some(me)) && forall a :: a in r ==> a.kind != CallSnap
  {
    if d.availableActions == [] then []
    else if ShowsSnap(d.state.cardsOnStack) then [PlayerAction(CallSnap, me, d.state.gameStateId)]
    else
      match TurnAction(d, me)
      case Some(a) => [a]
      case None => []
  }

  /** Every card the authority renders has a last character. */
  lemma RenderedIsReadable(cards: seq<Card>)
    ensures Readable(RenderAll(cards))
  {
    var stack := RenderAll(cards);
    forall i | 0 <= i < |stack| ensures stack[i] != [] {
      assert |stack[i]| >= 2;
    }
  }

  /** On a stack the authority rendered, the agent's snap test holds exactly when the
      top two cards have the same number: the test the authority uses to judge the call. */
  lemma ShowsSnapIffSameNumber(cards: seq<Card>)
    ensures Readable(RenderAll(cards))
    ensures ShowsSnap(RenderAll(cards)) <==>
      |cards| >= 2 && cards[|cards| - 2].number == cards[|cards| - 1].number
  {
    RenderedIsReadable(cards);
    if |cards| >= 2 {
      TopTwoRendered(cards);
      LastCharMatchesIffSameNumber(cards[|cards| - 2], cards[|cards| - 1]);
    }
  }

  lemma TopTwoRendered(cards: seq<Card>)
    requires |cards| >= 2
    ensures var stack := RenderAll(cards);
      stack[|stack| - 2] == ToString(cards[|cards| - 2]) && stack[|stack| - 1] == ToString(cards[|cards| - 1])
  {
  }

  /** Against a delivery built by the authority's offering rule, every action the agent
      decides on is one it was offered. */
  lemma DecisionsAreOffered(d: Delivery, me: PlayerId, hasCards: bool)
    requires Readable(d.state.cardsOnStack)
    requires d.availableActions ==
      AvailableActions(d.state.playerIdTurn == Some(me), hasCards, |d.state.cardsOnStack|)
    ensures forall a :: a in Decide(d, me) ==> a.kind in d.availableActions
    ensures hasCards && d.state.playerIdTurn == Some(me) && !ShowsSnap(d.state.cardsOnStack) ==>
      Decide(d, me) == [PlayerAction(LayCard, me, d.state.gameStateId)]
  {
  }
}
