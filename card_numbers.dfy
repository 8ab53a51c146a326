/** Card numbers (ranks) and their short display names. */
module CardNumberExtensions {

  import opened Wrappers

  /** The rank of a card. The enum underneath has Ace lowest, then the numeric
      ranks, then the court cards; see Ordinal. */
  datatype CardNumber =
    | Ace | Two | Three | Four | Five | Six | Seven | Eight | Nine | Ten
    | Jack | Queen | King

  /** All ranks in enum order, the order in which enumerating the enum yields them. */
  const AllNumbers: seq<CardNumber> :=
    [Ace, Two, Three, Four, Five, Six, Seven, Eight, Nine, Ten, Jack, Queen, King]

  /** The enum's underlying integer value, `(int)number`. */
  function Ordinal(n: CardNumber): int
  {
    match n
    case Ace => 1
    case Two => 2
    case Three => 3
    case Four => 4
    case Five => 5
    case Six => 6
    case Seven => 7
    case Eight => 8
    case Nine => 9
    case Ten => 10
    case Jack => 11
    case Queen => 12
    case King => 13
  }

  /** The enum member's name, `number.ToString()`. */
  function NumberName(n: CardNumber): string
  {
    match n
    case Ace => "Ace"
    case Two => "Two"
    case Three => "Three"
    case Four => "Four"
    case Five => "Five"
    case Six => "Six"
    case Seven => "Seven"
    case Eight => "Eight"
    case Nine => "Nine"
    case Ten => "Ten"
    case Jack => "Jack"
    case Queen => "Queen"
    case King => "King"
  }

  lemma AllNumbersListsEveryRankOnce()
    ensures |AllNumbers| == 13
    ensures forall i, j :: 0 <= i < j < |AllNumbers| ==> AllNumbers[i] != AllNumbers[j]
    ensures forall n: CardNumber :: n in AllNumbers
    ensures forall i :: 0 <= i < |AllNumbers| ==> Ordinal(AllNumbers[i]) == i + 1
  {
    forall n: CardNumber ensures n in AllNumbers {
      assert AllNumbers[Ordinal(n) - 1] == n;
    }
  }

  predicate IsDigit(c: char)
  {
    '0' <= c <= '9'
  }

  /** The decimal rendering of a non-negative integer, as `int.ToString()` gives it. */
  function DecimalString(v: nat): (s: string)
    ensures |s| >= 1
    ensures forall i :: 0 <= i < |s| ==> IsDigit(s[i])
  {
    if v < 10 then [('0' as int + v) as char]
    else DecimalString(v / 10) + [('0' as int + v % 10) as char]
  }

  /** Reads a string of decimal digits back as a number. */
  function DecimalValue(s: string): nat
    requires forall i :: 0 <= i < |s| ==> IsDigit(s[i])
  {
    if s == [] then 0
    else
      assert IsDigit(s[|s| - 1]);
      DecimalValue(s[..|s| - 1]) * 10 + (s[|s| - 1] as int - '0' as int)
  }

  /** Rendering in decimal loses nothing: reading the digits back gives the number. */
  lemma {:induction false} DecimalRoundTrip(v: nat)
    ensures DecimalValue(DecimalString(v)) == v
  {
    var s := DecimalString(v);
    if v >= 10 {
      DecimalRoundTrip(v / 10);
      assert s[..|s| - 1] == DecimalString(v / 10);
    }
  }

  /** The short display name of a rank: the number itself for the ranks strictly
      between Ace and Jack, otherwise the first letter of the enum name. */
  function ToShortName(n: CardNumber): (s: string)
    ensures 1 <= |s| <= 2
  {
    if Ordinal(n) > Ordinal(Ace) && Ordinal(n) < Ordinal(Jack) then DecimalString(Ordinal(n))
    else NumberName(n)[..1]
  }

  /** A numeric rank's short name is all digits and reads back as the rank's integer value. */
  lemma NumericShortName(n: CardNumber)
    requires Ordinal(Ace) < Ordinal(n) < Ordinal(Jack)
    ensures forall i :: 0 <= i < |ToShortName(n)| ==> IsDigit(ToShortName(n)[i])
    ensures DecimalValue(ToShortName(n)) == Ordinal(n)
  {
    DecimalRoundTrip(Ordinal(n) as nat);
  }

  /** Ace and the court cards are shown by a single letter, the first of their name. */
  lemma LetterShortName(n: CardNumber)
    requires !(Ordinal(Ace) < Ordinal(n) < Ordinal(Jack))
    ensures |ToShortName(n)| == 1 && ToShortName(n)[0] == NumberName(n)[0]
    ensures !IsDigit(ToShortName(n)[0])
  {
  }

  /** Reads a short name back; the reference inverse of ToShortName. */
  function FromShortName(s: string): (r: Option<CardNumber>)
  {
    if s == "A" then Some(Ace)
    else if s == "J" then Some(Jack)
    else if s == "Q" then Some(Queen)
    else if s == "K" then Some(King)
    else if s != [] && forall i :: 0 <= i < |s| ==> IsDigit(s[i]) then
      var v := DecimalValue(s);
      if 2 <= v <= 10 then Some(AllNumbers[v - 1]) else None
    else None
  }

  /** Every rank's short name reads back as that rank, so no two ranks share a short name. */
  lemma ShortNameRoundTrip(n: CardNumber)
    ensures FromShortName(ToShortName(n)) == Some(n)
  {
    var s := ToShortName(n);
    if Ordinal(Ace) < Ordinal(n) < Ordinal(Jack) {
      NumericShortName(n);
      assert s != "A" && s != "J" && s != "Q" && s != "K" by {
        assert IsDigit(s[0]);
      }
      assert AllNumbers[Ordinal(n) - 1] == n;
    } else {
      match n
      case Ace => assert s == "A";
      case Jack => assert s == "J";
      case Queen => assert s == "Q";
      case King => assert s == "K";
    }
  }

  lemma ShortNameInjective(a: CardNumber, b: CardNumber)
    ensures ToShortName(a) == ToShortName(b) <==> a == b
  {
    ShortNameRoundTrip(a);
    ShortNameRoundTrip(b);
  }

  /** The rank a short name ends with: the reference reading of the last character alone. */
  function FromLastChar(c: char): Option<CardNumber>
  {
    if c == '0' then Some(Ten)
    else if '2' <= c <= '9' then Some(AllNumbers[c as int - '1' as int])
    else if c == 'A' then Some(Ace)
    else if c == 'J' then Some(Jack)
    else if c == 'Q' then Some(Queen)
    else if c == 'K' then Some(King)
    else None
  }

  /** The last character of a short name already determines the rank: Ten is the
      only rank of two characters and the only one ending in '0'. */
  lemma LastCharDeterminesNumber(n: CardNumber)
    ensures FromLastChar(ToShortName(n)[|ToShortName(n)| - 1]) == Some(n)
  {
    match n
    case Ten =>
      assert DecimalString(10) == "10";
    case _ =>
  }
}
