/** Card suits and the single character that shows them. */
module CardSuitExtensions {

  import opened Wrappers

  /** The suit of a card, in the order its enum declares them. */
  datatype CardSuit = Club | Diamond | Spade | Heart

  /** All suits in enum order, the order in which enumerating the enum yields them. */
  const AllSuits: seq<CardSuit> := [Club, Diamond, Spade, Heart]

  /** The enum member's name, `suit.ToString()`. */
  function SuitName(s: CardSuit): string
  {
    match s
    case Club => "Club"
    case Diamond => "Diamond"
    case Spade => "Spade"
    case Heart => "Heart"
  }

  /** Position of a suit in AllSuits. */
  function SuitIndex(s: CardSuit): (i: nat)
    ensures i < |AllSuits| && AllSuits[i] == s
  {
    match s
    case Club => 0
    case Diamond => 1
    case Spade => 2
    case Heart => 3
  }

  lemma AllSuitsListsEverySuitOnce()
    ensures |AllSuits| == 4
    ensures forall i, j :: 0 <= i < j < |AllSuits| ==> AllSuits[i] != AllSuits[j]
    ensures forall s: CardSuit :: s in AllSuits
  {
    forall s: CardSuit ensures s in AllSuits {
      assert AllSuits[SuitIndex(s)] == s;
    }
  }

  /** The character for a suit: with `unicode` the card-suit symbol
      (U+2663 club, U+2666 diamond, U+2660 spade, U+2665 heart),
      otherwise the first letter of the suit's name. */
  function ToChar(suit: CardSuit, unicode: bool): (c: char)
    ensures unicode ==> c in "\U{2660}\U{2663}\U{2665}\U{2666}"
    ensures !unicode ==> 'A' <= c <= 'Z'
  {
    if unicode then
      match suit
      case Club => '\U{2663}'
      case Diamond => '\U{2666}'
      case Spade => '\U{2660}'
      case Heart => '\U{2665}'
    else SuitName(suit)[0]
  }

  /** Reads a suit character back; the reference inverse of ToChar. */
  function FromChar(c: char, unicode: bool): Option<CardSuit>
  {
    if unicode then
      if c == '\U{2663}' then Some(Club)
      else if c == '\U{2666}' then Some(Diamond)
      else if c == '\U{2660}' then Some(Spade)
      else if c == '\U{2665}' then Some(Heart)
      else None
    else
      if c == 'C' then Some(Club)
      else if c == 'D' then Some(Diamond)
      else if c == 'S' then Some(Spade)
      else if c == 'H' then Some(Heart)
      else None
  }

  /** Either way of showing a suit can be read back, so the four suits get four
      distinct characters in both modes. */
  lemma ToCharRoundTrip(suit: CardSuit, unicode: bool)
    ensures FromChar(ToChar(suit, unicode), unicode) == Some(suit)
  {
  }

  lemma ToCharInjective(a: CardSuit, b: CardSuit, unicode: bool)
    ensures ToChar(a, unicode) == ToChar(b, unicode) <==> a == b
  {
    ToCharRoundTrip(a, unicode);
    ToCharRoundTrip(b, unicode);
  }

  /** The plain rendering is the first character of the suit's name. */
  lemma PlainCharIsInitial(suit: CardSuit)
    ensures ToChar(suit, false) == SuitName(suit)[0]
    ensures 'A' <= ToChar(suit, false) <= 'Z'
  {
  }
}
