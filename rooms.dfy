// One room's poker hand: starting a hand (reset and deal), applying a player's action,
// and the step after every action that rotates the turn, reveals community cards or
// pays out the pot.
module Rooms {
  import opened Cards
  import opened Players

  datatype Option<T> = None | Some(value: T)

  /** A room seats at most this many players. */
  const MaxPlayers: nat := 12

  /** The betting phases, in the order a hand goes through them. */
  datatype Phase = Preflop | Flop | Turn | River

  function PhaseIndex(p: Phase): nat {
    match p
    case Preflop => 0
    case Flop => 1
    case Turn => 2
    case River => 3
  }

  /** How many community cards lie on the table in each phase. */
  function CommunitySize(p: Phase): nat {
    match p
    case Preflop => 0
    case Flop => 3
    case Turn => 4
    case River => 5
  }

  /** How many cards leaving phase p reveals: three for the flop, one otherwise. */
  function Revealed(p: Phase): nat {
    if p == Preflop then 3 else 1
  }

  /**
   * The phase that follows p. Before the river it is the next phase in order and the
   * table then holds 0, 3, 4, 5 community cards; the river (never advanced from) maps
   * to itself.
   */
  function NextPhase(p: Phase): (r: Phase)
    ensures p != River ==> PhaseIndex(r) == PhaseIndex(p) + 1
    ensures p != River ==> CommunitySize(r) == CommunitySize(p) + Revealed(p)
    ensures p == River ==> r == River
  {
    if p == Preflop then Flop else if p == Flop then Turn else River
  }

  /** What a player asks to do; any other action name is Unknown. */
  datatype ActionKind = Fold | Check | Bet | Unknown

  /** The two hole cards dealt to one player, in the order they were popped. */
  datatype HoleCards = HoleCards(userId: string, first: Card, second: Card)

  /**
   * The hole cards are real cards, no card is dealt twice (within a hand or across
   * hands), and none of them is still in the deck.
   */
  ghost predicate WellDealt(hands: seq<HoleCards>, deck: seq<Card>) {
    (forall i :: 0 <= i < |hands| ==>
      IsCard(hands[i].first) && IsCard(hands[i].second) && hands[i].first != hands[i].second) &&
    (forall i, j :: 0 <= i < j < |hands| ==>
      hands[i].first != hands[j].first && hands[i].first != hands[j].second &&
      hands[i].second != hands[j].first && hands[i].second != hands[j].second) &&
    (forall i :: 0 <= i < |hands| ==> hands[i].first !in deck && hands[i].second !in deck)
  }

  /** Hole cards popped two by two off a rearranged fresh deck are well dealt. */
  lemma HoleCardsDistinct(shuffled: seq<Card>, players: seq<Player>, hands: seq<HoleCards>)
    requires multiset(shuffled) == multiset(FreshDeck()) && 2 * |players| <= |shuffled|
    requires |hands| == |players|
    requires forall i {:trigger hands[i]} :: 0 <= i < |players| ==>
      hands[i] == HoleCards(players[i].userId, shuffled[|shuffled| - 1 - 2 * i], shuffled[|shuffled| - 2 - 2 * i])
    ensures WellDealt(hands, shuffled[..|shuffled| - 2 * |hands|])
  {
    DeckIntegrity(shuffled, [], []);
    var n := |shuffled|;
    var rest := shuffled[..n - 2 * |hands|];
    forall i | 0 <= i < |hands|
      ensures IsCard(hands[i].first) && IsCard(hands[i].second) && hands[i].first != hands[i].second
    {
      assert shuffled[n - 1 - 2 * i] in shuffled + [] + [];
      assert shuffled[n - 2 - 2 * i] in shuffled + [] + [];
    }
    forall i, j | 0 <= i < j < |hands|
      ensures hands[i].first != hands[j].first && hands[i].first != hands[j].second &&
        hands[i].second != hands[j].first && hands[i].second != hands[j].second
    {
      assert hands[j] == HoleCards(players[j].userId, shuffled[n - 1 - 2 * j], shuffled[n - 2 - 2 * j]);
    }
    forall i | 0 <= i < |hands|
      ensures hands[i].first !in rest && hands[i].second !in rest
    {
      forall k | 0 <= k < |rest| ensures rest[k] != hands[i].first && rest[k] != hands[i].second {
        assert rest[k] == shuffled[k];
      }
    }
  }

  /**
   * Dealing: for each player in seating order, pop two cards off the end of the deck.
   * Player i gets the cards 2i and 2i+1 from the top, and the rest of the deck is what
   * lies below the dealt cards.
   */
  method DealHoleCards(deck: seq<Card>, players: seq<Player>) returns (hands: seq<HoleCards>, rest: seq<Card>)
    requires 2 * |players| <= |deck|
    ensures |hands| == |players|
    ensures rest == deck[..|deck| - 2 * |players|]
    ensures forall i {:trigger hands[i]} :: 0 <= i < |players| ==>
      hands[i] == HoleCards(players[i].userId, deck[|deck| - 1 - 2 * i], deck[|deck| - 2 - 2 * i])
  {
    hands, rest := [], deck;
    for i := 0 to |players|
      invariant |hands| == i
      invariant |rest| == |deck| - 2 * i
      invariant rest == deck[..|rest|]
      invariant forall k :: 0 <= k < i ==>
        hands[k] == HoleCards(players[k].userId, deck[|deck| - 1 - 2 * k], deck[|deck| - 2 - 2 * k])
    {
      var first := rest[|rest| - 1];
      rest := rest[..|rest| - 1];
      var second := rest[|rest| - 1];
      rest := rest[..|rest| - 1];
      hands := hands + [HoleCards(players[i].userId, first, second)];
    }
  }

  /** The chips a player's action moves to the pot: the amount of a bet they can cover, else nothing. */
  function Staked(p: Player, kind: ActionKind, amount: int): int {
    if kind == Bet && amount <= p.chips then amount else 0
  }

  /**
   * The acting player's record after the action: a fold sets `folded`, a check sets
   * `called`, a bet they can cover takes the amount from their chips.
   */
  function Acted(p: Player, kind: ActionKind, amount: int): Player {
    match kind
    case Fold => p.(folded := true)
    case Check => p.(called := true)
    case Bet => p.(chips := p.chips - Staked(p, kind, amount))
    case Unknown => p
  }

  /** The current bet after the action: raised to a covered bet's amount when that is higher. */
  function RaisedBet(currentBet: int, p: Player, kind: ActionKind, amount: int): int {
    if kind == Bet && amount <= p.chips && amount > currentBet then amount else currentBet
  }

  /**
   * What an action does to the acting player, the pot and the current bet: the chips
   * staked leave the player's stack; only a bet the player can cover stakes anything,
   * and it stakes exactly its amount (zero and negative amounts included); a fold sets
   * only `folded` and a check only `called`, so a bet never counts as having acted;
   * the current bet becomes the larger of itself and a covered bet's amount.
   */
  lemma ActionEffect(p: Player, kind: ActionKind, amount: int, currentBet: int)
    ensures var q, s := Acted(p, kind, amount), Staked(p, kind, amount);
      q.chips + s == p.chips && q.userId == p.userId && q.username == p.username &&
      q.folded == (p.folded || kind == Fold) && q.called == (p.called || kind == Check) &&
      (s != 0 ==> kind == Bet && amount <= p.chips) &&
      (kind == Bet && amount <= p.chips ==> s == amount)
    ensures kind == Bet && amount > p.chips ==> Acted(p, kind, amount) == p && Staked(p, kind, amount) == 0
    ensures var b := RaisedBet(currentBet, p, kind, amount);
      (kind == Bet && amount <= p.chips ==> b >= currentBet && b >= amount && (b == currentBet || b == amount)) &&
      (!(kind == Bet && amount <= p.chips) ==> b == currentBet)
  {
  }

  /** A fresh 52-card deck, shuffled in place with the given draws. */
  method ShuffledDeck(picks: seq<nat>) returns (cards: seq<Card>)
    requires ValidPicks(picks, 52)
    ensures cards == Shuffled(FreshDeck(), picks)
    ensures multiset(cards) == multiset(FreshDeck())
  {
    var ordered := FreshDeck();
    var a := new Card[52](k requires 0 <= k < 52 => ordered[k]);
    assert a[..] == ordered;
    Shuffle(a, picks);
    cards := a[..];
  }

  /** The betting round is over: at most one player is unfolded, or everyone has folded or checked. */
  predicate RoundOver(players: seq<Player>) {
    |UnfoldedSeats(players)| <= 1 || AllFoldedOrCalled(players)
  }

  /**
   * The round is over exactly when at most one seat is unfolded or every unfolded seat
   * (every seat the filter keeps) has checked.
   */
  lemma RoundOverExact(players: seq<Player>)
    ensures RoundOver(players) <==>
      |UnfoldedSeats(players)| <= 1 ||
      forall i :: 0 <= i < |players| && i in UnfoldedSeats(players) ==> players[i].called
  {
    UnfoldedSeatsExact(players);
  }

  /**
   * Seating one more player who has neither folded nor checked next to a table where
   * someone is still in reopens the round.
   */
  lemma UnactedPlayerKeepsRoundOpen(players: seq<Player>, p: Player)
    requires |UnfoldedSeats(players)| >= 1 && !p.folded && !p.called
    ensures !RoundOver(players + [p])
  {
    var all := players + [p];
    assert all[..|players|] == players;
    assert |UnfoldedSeats(all)| == |UnfoldedSeats(players)| + 1;
    assert !(all[|players|].folded || all[|players|].called);
  }

  /**
   * Before the river at least 24 cards are left in the deck, enough for the next
   * reveal: 52 cards in all, at most 24 dealt and at most 4 on the table.
   */
  lemma EnoughCardsToReveal(deck: seq<Card>, community: seq<Card>, dealt: seq<Card>, phase: Phase)
    requires multiset(deck) + multiset(community) + multiset(dealt) == multiset(FreshDeck())
    requires |community| == CommunitySize(phase) && |dealt| <= 2 * MaxPlayers && phase != River
    ensures Revealed(phase) <= |deck|
  {
    DeckIntegrity(deck, community, dealt);
  }

  /**
   * A shuffled fresh deck cut in two: the part left in the deck and the part dealt hold
   * all 52 cards, with none on the table.
   */
  lemma ShuffledDeckSplit(picks: seq<nat>, cut: nat)
    requires ValidPicks(picks, 52) && cut <= 52
    ensures var shuffled := Shuffled(FreshDeck(), picks);
      multiset(shuffled[..cut]) + multiset([]) + multiset(shuffled[cut..]) == multiset(FreshDeck())
  {
    ShuffledPermutes(FreshDeck(), picks);
    SplitKeepsCards(Shuffled(FreshDeck(), picks), cut);
  }

  /** A sequence cut in two: the two parts hold its elements, with none on the table. */
  lemma SplitKeepsCards(cards: seq<Card>, cut: nat)
    requires cut <= |cards|
    ensures multiset(cards[..cut]) + multiset([]) + multiset(cards[cut..]) == multiset(cards)
  {
    assert cards == cards[..cut] + cards[cut..];
  }

  /** Moving the top cards of the deck onto the table keeps every card accounted for. */
  lemma RevealKeepsCards(deck: seq<Card>, community: seq<Card>, dealt: seq<Card>, top: nat)
    requires top <= |deck|
    ensures multiset(deck[..top]) + multiset(community + deck[top..]) + multiset(dealt) ==
      multiset(deck) + multiset(community) + multiset(dealt)
  {
    assert deck == deck[..top] + deck[top..];
  }

  /** One room: its seated players and the state of the hand being played. */
  class Room {
    var owner: string
    var startingChips: int
    var players: seq<Player>
    var pot: int
    var currentBet: int
    var phase: Phase
    /** The user whose turn it is; None until the first hand starts. */
    var currentPlayer: Option<string>
    /** The undealt cards; the top of the deck is the end of the sequence. */
    var deck: seq<Card>
    var community: seq<Card>
    /** The cards popped for the current hand's hole cards (sent to the players, not stored by the server). */
    ghost var dealt: seq<Card>

    /**
     * The room invariant. Ids are distinct and at most MaxPlayers are seated. While a
     * hand runs: the current player is seated, someone is unfolded, an unfolded current
     * player is not the only one, the community cards match the phase, and the deck,
     * community and dealt cards are a rearrangement of the 52-card deck, with at most
     * two cards dealt per seat.
     */
    ghost predicate Valid()
      reads this
    {
      DistinctIds(players) && |players| <= MaxPlayers &&
      (currentPlayer.Some? ==>
        TurnInvariant(players, currentPlayer.value) &&
        |community| == CommunitySize(phase) && |dealt| <= 2 * MaxPlayers && CardsAccounted())
    }

    /** The deck, community and dealt cards are a rearrangement of the 52-card deck. */
    ghost predicate CardsAccounted()
      reads this`deck, this`community, this`dealt
    {
      multiset(deck) + multiset(community) + multiset(dealt) == multiset(FreshDeck())
    }

    /** A new room, as the first join creates it: no players and no hand yet. */
    constructor (owner: string, startingChips: int)
      ensures Valid()
      ensures this.owner == owner && this.startingChips == startingChips
      ensures players == [] && pot == 0 && currentBet == 0 && phase == Preflop
      ensures currentPlayer == None && deck == [] && community == []
    {
      this.owner := owner;
      this.startingChips := startingChips;
      players := [];
      pot := 0;
      currentBet := 0;
      phase := Preflop;
      currentPlayer := None;
      deck := [];
      community := [];
      dealt := [];
    }

    /**
     * Seat a player: a user id not yet seated gets a new seat at the end of the table
     * with the room's starting chips; a seated one changes nothing.
     */
    method Seat(userId: string, username: string)
      requires Valid() && |players| < MaxPlayers
      modifies this
      ensures Valid()
      ensures FindSeat(old(players), userId) < 0 ==>
        players == old(players) + [Player(userId, username, startingChips, false, false)]
      ensures FindSeat(old(players), userId) >= 0 ==> players == old(players)
      ensures FindSeat(players, userId) >= 0
      ensures owner == old(owner) && startingChips == old(startingChips) && pot == old(pot)
      ensures currentBet == old(currentBet) && phase == old(phase) && currentPlayer == old(currentPlayer)
      ensures deck == old(deck) && community == old(community) && dealt == old(dealt)
    {
      if FindSeat(players, userId) < 0 {
        var newcomer := Player(userId, username, startingChips, false, false);
        SeatingKeepsTurn(players, newcomer, if currentPlayer.Some? then currentPlayer.value else "");
        players := players + [newcomer];
      }
    }

    /**
     * The state right after a hand starts over the players `before`: flags cleared,
     * everything else about the players kept, pot and bet zero, preflop, no community
     * cards, the first seat to act, and two cards per player popped off the end of the
     * shuffled deck, player after player.
     */
    ghost predicate FreshHand(before: seq<Player>, picks: seq<nat>, hands: seq<HoleCards>)
      reads this
      requires ValidPicks(picks, 52)
    {
      var shuffled := Shuffled(FreshDeck(), picks);
      |players| == |before| && 1 <= |players| <= MaxPlayers &&
      (forall i :: 0 <= i < |players| ==> players[i] == before[i].(folded := false, called := false)) &&
      pot == 0 && currentBet == 0 && phase == Preflop && community == [] &&
      currentPlayer == Some(players[0].userId) &&
      deck == shuffled[..|shuffled| - 2 * |players|] &&
      dealt == shuffled[|shuffled| - 2 * |players|..] &&
      |hands| == |players| &&
      (forall i {:trigger hands[i]} :: 0 <= i < |players| ==>
        hands[i] == HoleCards(players[i].userId, shuffled[|shuffled| - 1 - 2 * i], shuffled[|shuffled| - 2 - 2 * i]))
    }

    /** Clear every player's `folded` and `called` flags, in seating order. */
    method ClearFlags()
      modifies this`players
      ensures |players| == |old(players)|
      ensures forall i :: 0 <= i < |players| ==> players[i] == old(players[i]).(folded := false, called := false)
    {
      for i := 0 to |players|
        invariant |players| == |old(players)|
        invariant forall k :: 0 <= k < i ==> players[k] == old(players[k]).(folded := false, called := false)
        invariant forall k :: i <= k < |players| ==> players[k] == old(players[k])
      {
        players := players[i := players[i].(folded := false, called := false)];
      }
    }

    /**
     * The body of starting a hand: reset the per-hand state, shuffle a fresh deck with
     * the given draws, deal two cards to every player and give the turn to the first seat.
     */
    method ResetAndDeal(picks: seq<nat>) returns (hands: seq<HoleCards>)
      requires Valid() && |players| >= 2 && ValidPicks(picks, 52)
      modifies this
      ensures Valid()
      ensures FreshHand(old(players), picks, hands)
      ensures owner == old(owner) && startingChips == old(startingChips)
    {
      pot := 0;
      currentBet := 0;
      phase := Preflop;
      ClearFlags();
      var shuffled := ShuffledDeck(picks);
      var rest;
      hands, rest := DealHoleCards(shuffled, players);
      deck := rest;
      community := [];
      dealt := shuffled[|shuffled| - 2 * |players|..];
      currentPlayer := Some(players[0].userId);
      FreshHandIsValid(old(players), picks, hands);
    }

    /**
     * Right after a deal the deck holds 52 - 2n cards, and the n hands are well dealt:
     * 2n distinct real cards, none of them left in the deck.
     */
    lemma FreshHandIsWellDealt(before: seq<Player>, picks: seq<nat>, hands: seq<HoleCards>)
      requires ValidPicks(picks, 52) && FreshHand(before, picks, hands)
      ensures |deck| == 52 - 2 * |hands| && WellDealt(hands, deck)
    {
      var shuffled := Shuffled(FreshDeck(), picks);
      ShuffledPermutes(FreshDeck(), picks);
      HoleCardsDistinct(shuffled, players, hands);
    }

    /**
     * A fresh hand keeps the seat of the player with id `userId` (or keeps it unseated),
     * and the last seat's record apart from its flags.
     */
    lemma FreshHandKeepsSeats(before: seq<Player>, picks: seq<nat>, hands: seq<HoleCards>, userId: string)
      requires ValidPicks(picks, 52) && FreshHand(before, picks, hands)
      ensures FindSeat(players, userId) == FindSeat(before, userId)
      ensures players[|players| - 1] == before[|before| - 1].(folded := false, called := false)
    {
      SameIdsSameSeat(players, before, userId);
    }

    /** A freshly dealt hand over players with distinct ids satisfies the room invariant. */
    lemma FreshHandIsValid(before: seq<Player>, picks: seq<nat>, hands: seq<HoleCards>)
      requires ValidPicks(picks, 52) && DistinctIds(before) && 2 <= |before|
      requires FreshHand(before, picks, hands)
      ensures Valid()
    {
      assert DistinctIds(players) by {
        forall i, j | 0 <= i < j < |players| ensures players[i].userId != players[j].userId {
          assert before[i].userId != before[j].userId;
        }
      }
      SeatOfSeated(players, 0);
      TwoUnfolded(players, 0, 1);
      ShuffledDeckSplit(picks, 52 - 2 * |players|);
    }

    /**
     * Apply the current player's action to the acting player's record, the pot and the
     * current bet (see Acted, Staked and RaisedBet); chips plus pot are conserved.
     */
    method ApplyAction(seat: nat, kind: ActionKind, amount: int)
      requires Valid() && currentPlayer.Some?
      requires seat < |players| && players[seat].userId == currentPlayer.value
      modifies this
      ensures Valid()
      ensures owner == old(owner) && startingChips == old(startingChips) && phase == old(phase)
      ensures currentPlayer == old(currentPlayer) && deck == old(deck) && community == old(community)
      ensures dealt == old(dealt)
      ensures players == old(players)[seat := Acted(old(players[seat]), kind, amount)]
      ensures pot == old(pot) + Staked(old(players[seat]), kind, amount)
      ensures currentBet == RaisedBet(old(currentBet), old(players[seat]), kind, amount)
      ensures TotalChips(players) + pot == old(TotalChips(players)) + old(pot)
    {
      var p := players[seat];
      players := players[seat := Acted(p, kind, amount)];
      pot := pot + Staked(p, kind, amount);
      currentBet := RaisedBet(currentBet, p, kind, amount);
      assert Valid() by {
        ActionKeepsTurn(old(players), players, seat);
      }
      assert TotalChips(players) == old(TotalChips(players)) - Staked(p, kind, amount) by {
        TotalAfterSeatChange(old(players), seat, Acted(p, kind, amount));
      }
    }

    /**
     * Showdown: credit the whole pot to the winner drawn by `roll` (the only unfolded
     * player when there is one). The pot, phase and turn are left as they were, so chips
     * plus pot grow by the pot.
     */
    method PayWinner(roll: nat)
      requires Valid() && currentPlayer.Some?
      modifies this
      ensures Valid()
      ensures |UnfoldedSeats(old(players))| >= 1
      ensures var w := WinnerSeat(old(players), roll);
        players == old(players)[w := old(players[w]).(chips := old(players[w].chips) + old(pot))]
      ensures owner == old(owner) && startingChips == old(startingChips) && currentBet == old(currentBet)
      ensures pot == old(pot) && phase == old(phase) && currentPlayer == old(currentPlayer)
      ensures deck == old(deck) && community == old(community) && dealt == old(dealt)
      ensures TotalChips(players) + pot == old(TotalChips(players)) + old(pot) + old(pot)
    {
      var w := WinnerSeat(players, roll);
      var winner := players[w];
      players := players[w := winner.(chips := winner.chips + pot)];
      assert Valid() by {
        SameIdsAndFoldsKeepTurn(old(players), players, currentPlayer.value);
      }
      TotalAfterSeatChange(old(players), w, players[w]);
    }

    /**
     * Advance to the next phase: move the top three cards (after the preflop) or the
     * top card (later) from the deck to the community cards, and give the turn to the
     * first unfolded player.
     */
    method RevealNext()
      requires Valid() && currentPlayer.Some? && phase != River
      requires |UnfoldedSeats(players)| >= 2
      modifies this
      ensures Valid() && currentPlayer.Some?
      ensures var k := Revealed(old(phase));
        k <= |old(deck)| &&
        deck == old(deck)[..|old(deck)| - k] &&
        community == old(community) + old(deck)[|old(deck)| - k..]
      ensures phase == NextPhase(old(phase))
      ensures |players| >= 1 && currentPlayer == Some(FirstToAct(old(players)))
      ensures owner == old(owner) && startingChips == old(startingChips) && currentBet == old(currentBet)
      ensures players == old(players) && pot == old(pot) && dealt == old(dealt)
    {
      EnoughCardsToReveal(deck, community, dealt, phase);
      var top := |deck| - Revealed(phase);
      ghost var d := deck;
      community := community + deck[top..];
      deck := deck[..top];
      RevealKeepsCards(d, old(community), dealt, top);
      phase := NextPhase(phase);
      currentPlayer := Some(FirstToAct(players));
      FirstToActSeated(players);
    }

    /** Pass the turn to the next unfolded player after the current one, wrapping around. */
    method PassTurn()
      requires Valid() && currentPlayer.Some?
      requires |UnfoldedSeats(players)| >= 2
      modifies this
      ensures Valid() && currentPlayer.Some?
      ensures var from := FindSeat(old(players), old(currentPlayer).value);
        var to := FindSeat(players, currentPlayer.value);
        0 <= from && 0 <= to && IsNextUnfolded(old(players), from, to) && to != from
      ensures owner == old(owner) && startingChips == old(startingChips) && currentBet == old(currentBet)
      ensures players == old(players) && pot == old(pot) && phase == old(phase)
      ensures deck == old(deck) && community == old(community) && dealt == old(dealt)
    {
      var cur := FindSeat(players, currentPlayer.value);
      var idx := NextTurnSeat(players, cur);
      NextUnfoldedNotSelf(players, cur, idx);
      currentPlayer := Some(players[idx].userId);
      SeatOfSeated(players, idx);
    }

    /**
     * The step run after every accepted action. When at most one player is unfolded or
     * everyone has folded or checked, the hand either pays out (at the river, or with one
     * player left) or advances a phase; otherwise the turn moves to the next unfolded
     * player.
     */
    method CheckRoundEnd(roll: nat)
      requires Valid() && currentPlayer.Some?
      modifies this
      ensures Valid() && currentPlayer.Some?
      ensures owner == old(owner) && startingChips == old(startingChips)
      ensures currentBet == old(currentBet) && dealt == old(dealt)
      ensures RoundOver(old(players)) && (old(phase) == River || |UnfoldedSeats(old(players))| == 1) ==>
        |UnfoldedSeats(old(players))| >= 1 &&
        var w := WinnerSeat(old(players), roll);
        players == old(players)[w := old(players[w]).(chips := old(players[w].chips) + old(pot))] &&
        pot == old(pot) && phase == old(phase) && currentPlayer == old(currentPlayer) &&
        deck == old(deck) && community == old(community) &&
        TotalChips(players) + pot == old(TotalChips(players)) + old(pot) + old(pot)
      ensures RoundOver(old(players)) && !(old(phase) == River || |UnfoldedSeats(old(players))| == 1) ==>
        var k := Revealed(old(phase));
        k <= |old(deck)| &&
        phase == NextPhase(old(phase)) &&
        deck == old(deck)[..|old(deck)| - k] &&
        community == old(community) + old(deck)[|old(deck)| - k..] &&
        players == old(players) && pot == old(pot) &&
        |players| >= 1 && currentPlayer == Some(FirstToAct(old(players)))
      ensures !RoundOver(old(players)) ==>
        players == old(players) && pot == old(pot) && phase == old(phase) &&
        deck == old(deck) && community == old(community) &&
        var from := FindSeat(old(players), old(currentPlayer).value);
        var to := FindSeat(players, currentPlayer.value);
        0 <= from && 0 <= to && IsNextUnfolded(old(players), from, to) && to != from
    {
      var active := UnfoldedSeats(players);
      if |active| <= 1 || AllFoldedOrCalled(players) {
        if phase == River || |active| == 1 {
          PayWinner(roll);
        } else {
          RevealNext();
        }
      } else {
        PassTurn();
      }
    }
  }

  /** A room where Ann and Bob (ids p1 and p2) joined with 1000 chips and a hand was dealt. */
  method TwoSeatedHand(picks: seq<nat>) returns (room: Room)
    requires ValidPicks(picks, 52)
    ensures fresh(room) && room.Valid() && room.currentPlayer == Some("p1") && room.pot == 0
    ensures room.players == [Player("p1", "Ann", 1000, false, false), Player("p2", "Bob", 1000, false, false)]
  {
    room := new Room("p1", 1000);
    room.Seat("p1", "Ann");
    room.Seat("p2", "Bob");
    var hands := room.ResetAndDeal(picks);
  }

  /**
   * A whole short hand: two players join with 1000 chips each, the first bets 50 and
   * the second folds. The showdown credits the 50 back to the bettor, who ends with
   * 1000 chips, and the pot still reads 50 because the showdown does not empty it.
   */
  method BetThenFold(picks: seq<nat>, roll: nat) returns (bettor: Player, folder: Player, pot: int)
    requires ValidPicks(picks, 52)
    ensures bettor == Player("p1", "Ann", 1000, false, false)
    ensures folder == Player("p2", "Bob", 1000, true, false)
    ensures pot == 50
  {
    var room := TwoSeatedHand(picks);

    room.ApplyAction(0, Bet, 50);
    assert room.players == [Player("p1", "Ann", 950, false, false), Player("p2", "Bob", 1000, false, false)];
    assert room.pot == 50;
    UnfoldedOfTwo(room.players[0], room.players[1]);
    room.CheckRoundEnd(roll);
    assert room.currentPlayer == Some("p2") by {
      var to := FindSeat(room.players, room.currentPlayer.value);
      assert to == 1;
    }

    room.ApplyAction(1, Fold, 0);
    assert room.players == [Player("p1", "Ann", 950, false, false), Player("p2", "Bob", 1000, true, false)];
    assert room.pot == 50;
    UnfoldedOfTwo(room.players[0], room.players[1]);
    assert WinnerSeat(room.players, roll) == 0;
    room.CheckRoundEnd(roll);
    bettor, folder, pot := room.players[0], room.players[1], room.pot;
  }
}
