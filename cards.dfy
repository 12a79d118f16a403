// Cards, the 52-card deck and the in-place Fisher-Yates shuffle of the poker server.
module Cards {

  /** Display names of the four suits, in the order the deck is built. */
  const SuitNames: seq<string> := ["♥", "♦", "♣", "♠"]

  /** Display names of the thirteen ranks, lowest first. */
  const RankNames: seq<string> := ["2", "3", "4", "5", "6", "7", "8", "9", "10", "J", "Q", "K", "A"]

  /** How many suits and ranks there are (the lengths of the two name lists). */
  const SuitCount: nat := 4
  const RankCount: nat := 13

  /** A card: `suit` indexes SuitNames and `rank` indexes RankNames. */
  datatype Card = Card(suit: nat, rank: nat)

  predicate IsCard(c: Card) {
    c.suit < SuitCount && c.rank < RankCount
  }

  /** The (suit, rank) pair of names the server shows for a card. */
  function CardName(c: Card): (name: (string, string))
    requires IsCard(c)
    ensures name.0 in SuitNames && name.1 in RankNames
  {
    (SuitNames[c.suit], RankNames[c.rank])
  }

  /** No two real cards have the same names: the name lists hold no repeated name. */
  lemma CardNameInjective(a: Card, b: Card)
    requires IsCard(a) && IsCard(b) && CardName(a) == CardName(b)
    ensures a == b
  {
    assert Distinct(SuitNames) by {
      assert forall i, j :: 0 <= i < j < 4 ==> SuitNames[i][0] != SuitNames[j][0];
    }
    assert Distinct(RankNames) by {
      assert forall i, j :: 0 <= i < j < 13 ==>
        |RankNames[i]| != |RankNames[j]| || RankNames[i][0] != RankNames[j][0];
    }
  }

  /** No element occurs twice. */
  predicate Distinct<T(==)>(s: seq<T>) {
    forall i, j :: 0 <= i < j < |s| ==> s[i] != s[j]
  }

  /** The unshuffled deck: every suit in turn, and within a suit every rank in turn. */
  function FreshDeck(): (deck: seq<Card>)
    ensures |deck| == 52
  {
    seq(52, i requires 0 <= i < 52 => Card(i / RankCount, i % RankCount))
  }

  /**
   * The fresh deck lists the cards suit by suit and, within a suit, rank by rank: card
   * i has the i / 13-th suit name and the i % 13-th rank name, with 4 * 13 = 52 cards.
   */
  lemma FreshDeckOrder()
    ensures |SuitNames| * |RankNames| == |FreshDeck()|
    ensures forall i :: 0 <= i < 52 ==>
      IsCard(FreshDeck()[i]) && CardName(FreshDeck()[i]) == (SuitNames[i / RankCount], RankNames[i % RankCount])
  {
  }

  /** The fresh deck holds every card exactly once. */
  lemma FreshDeckIsComplete()
    ensures Distinct(FreshDeck())
    ensures forall c :: c in FreshDeck() <==> IsCard(c)
  {
    var d := FreshDeck();
    assert forall c :: IsCard(c) ==> d[c.suit * RankCount + c.rank] == c;
  }

  /** A card occurs at most once in a sequence without repetitions. */
  lemma {:induction false} DistinctMultiplicity<T>(s: seq<T>, x: T)
    requires Distinct(s)
    ensures multiset(s)[x] <= 1
  {
    if s != [] {
      assert s == [s[0]] + s[1..];
      DistinctMultiplicity(s[1..], x);
      if x == s[0] {
        assert x !in s[1..];
      }
    }
  }

  /** Two positions holding the same value give that value multiplicity at least two. */
  lemma RepeatedMultiplicity<T>(s: seq<T>, i: nat, j: nat)
    requires i < j < |s| && s[i] == s[j]
    ensures multiset(s)[s[i]] >= 2
  {
    assert s == s[..j] + s[j..];
    assert s[i] in s[..j];
    assert s[j] in s[j..];
  }

  /**
   * Deck integrity: three sequences that together are a rearrangement of the fresh
   * deck (the cards left in the deck, the community cards and the dealt hole cards)
   * hold 52 cards in all, none twice, none in two of them, and every one a real card.
   */
  lemma DeckIntegrity(deck: seq<Card>, community: seq<Card>, dealt: seq<Card>)
    requires multiset(deck) + multiset(community) + multiset(dealt) == multiset(FreshDeck())
    ensures |deck| + |community| + |dealt| == 52
    ensures Distinct(deck) && Distinct(community) && Distinct(dealt)
    ensures forall c :: c in deck ==> c !in community && c !in dealt
    ensures forall c :: c in community ==> c !in dealt
    ensures forall c :: c in deck + community + dealt ==> IsCard(c)
  {
    FreshDeckIsComplete();
    var whole := multiset(FreshDeck());
    assert |whole| == 52;
    forall c ensures whole[c] <= 1 {
      DistinctMultiplicity(FreshDeck(), c);
    }
    forall c ensures multiset(deck)[c] + multiset(community)[c] + multiset(dealt)[c] <= 1 {
      assert whole[c] == multiset(deck)[c] + multiset(community)[c] + multiset(dealt)[c];
    }
    forall i, j | 0 <= i < j < |deck| ensures deck[i] != deck[j] {
      if deck[i] == deck[j] { RepeatedMultiplicity(deck, i, j); }
    }
    forall i, j | 0 <= i < j < |community| ensures community[i] != community[j] {
      if community[i] == community[j] { RepeatedMultiplicity(community, i, j); }
    }
    forall i, j | 0 <= i < j < |dealt| ensures dealt[i] != dealt[j] {
      if dealt[i] == dealt[j] { RepeatedMultiplicity(dealt, i, j); }
    }
    forall c | c in deck ensures c !in community && c !in dealt {
      assert multiset(deck)[c] >= 1;
    }
    forall c | c in community ensures c !in dealt {
      assert multiset(community)[c] >= 1;
    }
    forall c | c in deck + community + dealt ensures IsCard(c) {
      assert whole[c] > 0;
    }
  }

  /** Exchange the elements at positions i and j. */
  function Swap<T>(s: seq<T>, i: nat, j: nat): (r: seq<T>)
    requires i < |s| && j < |s|
    ensures |r| == |s| && r[i] == s[j] && r[j] == s[i]
    ensures forall k :: 0 <= k < |s| && k != i && k != j ==> r[k] == s[k]
  {
    s[i := s[j]][j := s[i]]
  }

  /** An exchange keeps every element. */
  lemma SwapPermutes<T>(s: seq<T>, i: nat, j: nat)
    requires i < |s| && j < |s|
    ensures multiset(Swap(s, i, j)) == multiset(s)
  {
  }

  /**
   * The random draws of a shuffle of n elements: for each i from n - 1 down to 1 the
   * shuffle swaps position i with position picks[i], a draw from 0..i.
   */
  predicate ValidPicks(picks: seq<nat>, n: nat) {
    |picks| == n && forall i :: 1 <= i < n ==> picks[i] <= i
  }

  /** The shuffle's remaining passes, from position i down to position 1. */
  function ShuffleFrom<T>(s: seq<T>, picks: seq<nat>, i: int): (r: seq<T>)
    requires ValidPicks(picks, |s|) && i < |s|
    ensures |r| == |s|
    decreases i
  {
    if i <= 0 then s else ShuffleFrom(Swap(s, i, picks[i]), picks, i - 1)
  }

  /** The whole Fisher-Yates shuffle of s with the given draws. */
  function Shuffled<T>(s: seq<T>, picks: seq<nat>): (r: seq<T>)
    requires ValidPicks(picks, |s|)
    ensures |r| == |s|
  {
    ShuffleFrom(s, picks, |s| - 1)
  }

  /** Every pass only exchanges two elements, so the shuffle is a permutation. */
  lemma {:induction false} ShuffleFromPermutes<T>(s: seq<T>, picks: seq<nat>, i: int)
    requires ValidPicks(picks, |s|) && i < |s|
    ensures multiset(ShuffleFrom(s, picks, i)) == multiset(s)
    decreases i
  {
    if i > 0 {
      SwapPermutes(s, i, picks[i]);
      ShuffleFromPermutes(Swap(s, i, picks[i]), picks, i - 1);
    }
  }

  /** The whole shuffle is a permutation. */
  lemma ShuffledPermutes<T>(s: seq<T>, picks: seq<nat>)
    requires ValidPicks(picks, |s|)
    ensures multiset(Shuffled(s, picks)) == multiset(s)
  {
    ShuffleFromPermutes(s, picks, |s| - 1);
  }

  /** The shuffle in place: position i, from the last down to 1, is swapped with picks[i]. */
  method Shuffle<T>(a: array<T>, picks: seq<nat>)
    requires ValidPicks(picks, a.Length)
    modifies a
    ensures a[..] == Shuffled(old(a[..]), picks)
    ensures multiset(a[..]) == multiset(old(a[..]))
  {
    var i := a.Length - 1;
    while i > 0
      invariant -1 <= i < a.Length
      invariant ShuffleFrom(a[..], picks, i) == Shuffled(old(a[..]), picks)
    {
      var j := picks[i];
      ghost var before := a[..];
      var t := a[i];
      a[i] := a[j];
      a[j] := t;
      assert a[..] == Swap(before, i, j);
      i := i - 1;
    }
    ShuffledPermutes(old(a[..]), picks);
  }
}
