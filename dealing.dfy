/** Round-robin dealing: the k-th card of a shuffled sequence goes to player k mod n.
    Both Game.Start and SnapGame.StartGame deal this way; this module states what
    such a deal produces and proves its properties once. */
module Dealing {

  /** The player the wrapping counter of a dealing loop points at after k cards:
      it starts at 0, goes up by one per card and goes back to 0 on reaching n. */
  function Seat(k: nat, n: nat): (p: nat)
    requires n > 0
    ensures p < n
  {
    if k == 0 then 0
    else
      var prev := Seat(k - 1, n);
      if prev + 1 == n then 0 else prev + 1
  }

  /** How many times the counter has wrapped after k cards: the completed rounds. */
  function Rounds(k: nat, n: nat): nat
    requires n > 0
  {
    if k == 0 then 0
    else if Seat(k - 1, n) + 1 == n then Rounds(k - 1, n) + 1
    else Rounds(k - 1, n)
  }

  /** The cards of `s` that a round-robin deal over `n` players gives to player `p`:
      those dealt while the counter pointed at p, in their order in `s`. Defined from
      the back, the way the dealing loops append one card at a time. */
  function Dealt<T>(s: seq<T>, n: nat, p: nat): (r: seq<T>)
    requires n > 0
    ensures |r| <= |s|
  {
    if s == [] then []
    else Dealt(s[..|s| - 1], n, p) + (if Seat(|s| - 1, n) == p then [s[|s| - 1]] else [])
  }

  /** Dealing one more card extends exactly the hand of the player whose turn it is. */
  lemma DealtSnoc<T>(s: seq<T>, x: T, n: nat, p: nat)
    requires n > 0
    ensures Dealt(s + [x], n, p) == Dealt(s, n, p) + (if Seat(|s|, n) == p then [x] else [])
  {
    assert (s + [x])[..|s|] == s;
  }

  /** After k cards the counter has made Rounds(k, n) full rounds and stands at Seat(k, n). */
  lemma {:induction false} SeatAndRounds(k: nat, n: nat)
    requires n > 0
    ensures k == Rounds(k, n) * n + Seat(k, n)
  {
    if k > 0 {
      SeatAndRounds(k - 1, n);
      var r := Rounds(k - 1, n);
      assert (r + 1) * n == r * n + n;
    }
  }

  /** Euclidean division is unique: a quotient and remainder that reconstruct x are x / n and x % n. */
  lemma DivModUnique(x: int, n: int, q: int, r: int)
    requires n > 0 && 0 <= r < n && x == q * n + r
    ensures x / n == q && x % n == r
  {
    var q', r' := x / n, x % n;
    assert x == q' * n + r';
    assert (q - q') * n == r' - r;
    MultipleBelowIsZero(q - q', n);
  }

  /** The only multiple of n strictly between -n and n is 0. */
  lemma MultipleBelowIsZero(a: int, n: int)
    requires n > 0 && -n < a * n < n
    ensures a == 0
  {
    if a >= 1 {
      MulAtLeast(a, n);
      assert false;
    } else if a <= -1 {
      MulAtMost(a, n);
      assert false;
    }
  }

  lemma MulAtLeast(a: int, n: int)
    requires a >= 1 && n > 0
    ensures a * n >= n
  {
  }

  lemma MulAtMost(a: int, n: int)
    requires a <= -1 && n > 0
    ensures a * n <= -n
  {
  }

  /** The wrapping counter equals the number of cards dealt so far, mod n; the rounds are the quotient. */
  lemma SeatIsMod(k: nat, n: nat)
    requires n > 0
    ensures Seat(k, n) == k % n && Rounds(k, n) == k / n
  {
    SeatAndRounds(k, n);
    DivModUnique(k, n, Rounds(k, n), Seat(k, n));
  }

  /** Player p receives one card per completed round, plus one when the counter has
      already passed p in the round under way. */
  lemma {:induction false} DealtLength<T>(s: seq<T>, n: nat, p: nat)
    requires p < n
    ensures |Dealt(s, n, p)| == Rounds(|s|, n) + (if p < Seat(|s|, n) then 1 else 0)
  {
    if s != [] {
      var init := s[..|s| - 1];
      assert s == init + [s[|s| - 1]];
      DealtLength(init, n, p);
      DealtSnoc(init, s[|s| - 1], n, p);
    }
  }

  /** In terms of division: p receives |s| / n cards, plus one when p < |s| % n. */
  lemma HandSize<T>(s: seq<T>, n: nat, p: nat)
    requires p < n
    ensures |Dealt(s, n, p)| == |s| / n + (if p < |s| % n then 1 else 0)
  {
    DealtLength(s, n, p);
    SeatIsMod(|s|, n);
  }

  /** Hand sizes differ by at most one, and an earlier player never has fewer cards. */
  lemma HandsBalanced<T>(s: seq<T>, n: nat, p: nat, q: nat)
    requires p <= q < n
    ensures |Dealt(s, n, q)| <= |Dealt(s, n, p)| <= |Dealt(s, n, q)| + 1
  {
    DealtLength(s, n, p);
    DealtLength(s, n, q);
  }

  /** The j-th card of player p's hand is the card at position j * n + p of the deal:
      every hand keeps the relative order of the shuffled sequence. */
  lemma {:induction false} DealtAt<T>(s: seq<T>, n: nat, p: nat, j: nat)
    requires p < n && j < |Dealt(s, n, p)|
    ensures j * n + p < |s| && Dealt(s, n, p)[j] == s[j * n + p]
  {
    var init := s[..|s| - 1];
    assert s == init + [s[|s| - 1]];
    DealtSnoc(init, s[|s| - 1], n, p);
    if j < |Dealt(init, n, p)| {
      DealtAt(init, n, p, j);
    } else {
      DealtLength(init, n, p);
      SeatAndRounds(|init|, n);
    }
  }

  /** Dealing a prefix of the cards gives a prefix of every hand. */
  lemma {:induction false} DealtPrefix<T>(s: seq<T>, n: nat, p: nat, m: nat)
    requires n > 0 && m <= |s|
    ensures Dealt(s[..m], n, p) <= Dealt(s, n, p)
    decreases |s| - m
  {
    if m < |s| {
      DealtPrefix(s, n, p, m + 1);
      DealtSnoc(s[..m], s[m], n, p);
      assert s[..m] + [s[m]] == s[..m + 1];
    } else {
      assert s[..m] == s;
    }
  }

  /** The k-th card dealt (counting from 0) lands in the hand of player k mod n,
      at position k / n of that hand. */
  lemma CardGoesTo<T>(s: seq<T>, n: nat, k: nat)
    requires n > 0 && k < |s|
    ensures k / n < |Dealt(s, n, k % n)| && Dealt(s, n, k % n)[k / n] == s[k]
  {
    SeatIsMod(k, n);
    var p := Seat(k, n);
    DealtSnoc(s[..k], s[k], n, p);
    assert s[..k] + [s[k]] == s[..k + 1];
    DealtLength(s[..k], n, p);
    DealtPrefix(s, n, p, k + 1);
  }

  /** With two players every card is dealt to exactly one of them: both hands together
      hold exactly the dealt cards. */
  lemma {:induction false} TwoHandsConserveCards<T>(s: seq<T>)
    ensures multiset(Dealt(s, 2, 0)) + multiset(Dealt(s, 2, 1)) == multiset(s)
  {
    if s != [] {
      var init, last := s[..|s| - 1], s[|s| - 1];
      assert s == init + [last];
      TwoHandsConserveCards(init);
      DealtSnoc(init, last, 2, 0);
      DealtSnoc(init, last, 2, 1);
      var a, b := multiset(Dealt(init, 2, 0)), multiset(Dealt(init, 2, 1));
      if Seat(|init|, 2) == 0 {
        assert multiset(Dealt(s, 2, 0)) == a + multiset{last};
        assert multiset(Dealt(s, 2, 1)) == b;
      } else {
        assert multiset(Dealt(s, 2, 0)) == a;
        assert multiset(Dealt(s, 2, 1)) == b + multiset{last};
      }
      assert multiset(s) == multiset(init) + multiset{last};
    }
  }

  /** The number of cards the players 0 .. m-1 receive together. */
  function TotalDealt<T>(s: seq<T>, n: nat, m: nat): nat
    requires n > 0
  {
    if m == 0 then 0 else TotalDealt(s, n, m - 1) + |Dealt(s, n, m - 1)|
  }

  /** One more card adds one to the players 0 .. m-1 together exactly when it lands
      on one of them. */
  lemma {:induction false} TotalDealtSnoc<T>(s: seq<T>, x: T, n: nat, m: nat)
    requires n > 0
    ensures TotalDealt(s + [x], n, m) == TotalDealt(s, n, m) + (if Seat(|s|, n) < m then 1 else 0)
  {
    if m > 0 {
      TotalDealtSnoc(s, x, n, m - 1);
      DealtSnoc(s, x, n, m - 1);
    }
  }

  /** With nothing to deal, nobody receives a card. */
  lemma {:induction false} NothingDealt<T>(s: seq<T>, n: nat, m: nat)
    requires n > 0 && s == []
    ensures TotalDealt(s, n, m) == 0
  {
    if m > 0 {
      NothingDealt(s, n, m - 1);
    }
  }

  /** Whatever the number of players, the hands together hold as many cards as were
      dealt: with CardGoesTo, every card lands in exactly one hand. */
  lemma {:induction false} AllCardsDealt<T>(s: seq<T>, n: nat)
    requires n > 0
    ensures TotalDealt(s, n, n) == |s|
  {
    if s == [] {
      NothingDealt(s, n, n);
    } else {
      var init := s[..|s| - 1];
      assert s == init + [s[|s| - 1]];
      AllCardsDealt(init, n);
      TotalDealtSnoc(init, s[|s| - 1], n, n);
    }
  }
}
