/** A playing card and the text that shows it. */
module Cards {

  import opened Wrappers
  import opened CardNumberExtensions
  import opened CardSuitExtensions

  /** A card: its rank, its suit and the id the deck factory gives it (-1 until then). */
  datatype Card = Card(number: CardNumber, suit: CardSuit, id: int)

  /** The id a card carries before the deck factory numbers it. */
  const UnassignedId: int := -1

  /** A newly constructed card: the given rank and suit, no id yet. */
  function NewCard(number: CardNumber, suit: CardSuit): (c: Card)
    ensures c.number == number && c.suit == suit
    ensures c.id == UnassignedId
  {
    Card(number, suit, UnassignedId)
  }

  /** The card as text: its unicode suit symbol followed by the short name of its rank. */
  function ToString(c: Card): (s: string)
    ensures 2 <= |s| <= 3 && s[0] == ToChar(c.suit, true)
  {
    [ToChar(c.suit, true)] + ToShortName(c.number)
  }

  /** Reads a rendered card back to its rank and suit; the reference inverse of ToString. */
  function Parse(s: string): Option<(CardNumber, CardSuit)>
  {
    if |s| < 2 then None
    else
      match (FromChar(s[0], true), FromShortName(s[1..]))
      case (Some(suit), Some(number)) => Some((number, suit))
      case _ => None
  }

  /** A rendered card shows exactly its rank and suit: parsing gives them back, so two
      cards render alike exactly when they agree on rank and suit. */
  lemma ToStringRoundTrip(c: Card)
    ensures Parse(ToString(c)) == Some((c.number, c.suit))
  {
    var s := ToString(c);
    assert s[1..] == ToShortName(c.number);
    ToCharRoundTrip(c.suit, true);
    ShortNameRoundTrip(c.number);
  }

  lemma ToStringInjective(a: Card, b: Card)
    ensures ToString(a) == ToString(b) <==> a.number == b.number && a.suit == b.suit
  {
    ToStringRoundTrip(a);
    ToStringRoundTrip(b);
  }

  /** The one-character suit prefix is followed by the rank's short name, so two cards
      of the same rank render with the same suffix whatever their suits. */
  lemma SameNumberSameSuffix(a: Card, b: Card)
    requires a.number == b.number
    ensures |ToString(a)| == |ToString(b)| >= 2
    ensures ToString(a)[1..] == ToString(b)[1..] == ToShortName(a.number)
  {
    assert ToString(a)[1..] == ToShortName(a.number);
    assert ToString(b)[1..] == ToShortName(b.number);
  }

  /** The last character of a rendered card. */
  function LastChar(s: string): char
    requires s != []
  {
    s[|s| - 1]
  }

  /** Comparing the last characters of two rendered cards is the same as comparing their ranks. */
  lemma LastCharMatchesIffSameNumber(a: Card, b: Card)
    ensures LastChar(ToString(a)) == LastChar(ToString(b)) <==> a.number == b.number
  {
    var sa, sb := ToShortName(a.number), ToShortName(b.number);
    assert LastChar(ToString(a)) == sa[|sa| - 1];
    assert LastChar(ToString(b)) == sb[|sb| - 1];
    LastCharDeterminesNumber(a.number);
    LastCharDeterminesNumber(b.number);
  }
}
