# Poker room server: the hand state machine

This project models the poker-room logic of `server.js`. It proves properties of that model.

The server keeps a table of rooms keyed by room id. Each room seats up to twelve players and plays one hand at a time. The model covers the server's three entry points:

- **Join a room.** The room is created on first use. The player is seated unless already seated. Once two or more are seated, a new hand starts.
- **Start a hand.** Per-hand state is reset. A fresh 52-card deck is shuffled in place with Fisher–Yates. Two cards are popped for each player in seating order, and the first seat gets the turn.
- **Act.** A fold, check or bet is applied for the player whose turn it is. Then the round-end step runs. That step either passes the turn to the next unfolded player, reveals community cards and advances the phase, or credits the pot to a winner.

Structure:

- `cards.dfy` (module `Cards`): cards, the fresh deck, the in-place shuffle on an `array`, and the deck-integrity lemmas.
- `players.dfy` (module `Players`): the player record and the pure queries over the seats.
  - `FindSeat` models `find` and `findIndex`.
  - `UnfoldedSeats` models the `filter`.
  - `AllFoldedOrCalled` models the `every`.
  - `NextTurnSeat` models the `do … while` rotation, as a method with a loop.
  - The file also holds the showdown draw and the chip total.
- `rooms.dfy` (module `Rooms`): the `Room` class.
  - Its fields are updated in place, as the server updates the room object.
  - Its methods model the body of `startHand`, the effect of an action, and `checkRoundEnd`.
- `server.dfy` (module `Server`): the `RoomTable` class. It holds `rooms: map<string, Room>`, and its methods are the join, start-hand and action handlers.

The room invariant `Room.Valid` is kept by every method. It says:

- user ids are distinct and at most twelve players are seated;
- while a hand runs:
  - the current player is seated;
  - someone is unfolded;
  - an unfolded current player is not the only unfolded one;
  - the community cards match the phase;
  - the deck, the community cards and the dealt cards together are a rearrangement of the 52-card deck.

This invariant is why the showdown always finds a winner. It is also why the deck never runs short.

The model follows the code as written, including where it departs from what a poker engine would do:

- **Bets.** A bet is accepted whenever `amount <= chips`, so zero and negative amounts pass (`server.js:47`). A bet never marks the player as having acted. Only a check sets `called`.
- **Phase advance.** `called` is not cleared when the phase advances.
- **Showdown.** The pot is credited to the winner, but the pot, phase and current player are left as they were. So chips plus pot grow by the pot (`Rooms.Room.PayWinner`).
- **No hand-over guard.** The current player can keep acting after a showdown.
- **Joins.** Any join that leaves two or more players seated restarts the hand and discards the pot. This includes a join by an already-seated player, or one made mid-hand. The twelve-player cap is checked before the duplicate check.
- **Restart after a showdown.** The delayed restart calls `startHand(room.roomId)`, but `room.roomId` is never set, so it finds no room and does nothing.
- **A short hand.** After one player bets 50 and the other folds, the bettor holds 1000 chips again and the pot still reads 50 (`Rooms.BetThenFold`).
- **Empty-string fallbacks.** An empty room id falls back to a generated id. An empty user id for the first unfolded player falls back to the first seat. Both follow the falsy-value rules of JavaScript's `||`.

Randomness is a parameter:

- The shuffle's draws are `picks`, with `picks[i] <= i` (`ValidPicks`).
- The showdown's draw is `roll`, reduced to an index as `roll % |active|`.
- The new room id that `uuidv4()` would produce is the `generatedId` parameter.

## Model

| member | source | states |
|---|---|---|
| Cards.CardName | server.js:11-12 | A real card's names are a suit name and a rank name from the two lists. |
| Cards.CardNameInjective | server.js:11-12 | No two real cards share their (suit, rank) names, so the index encoding of `Card` is faithful to the name pairs. |
| Cards.FreshDeck | server.js:69 | The built deck has 52 cards. |
| Cards.FreshDeckOrder | server.js:69 | The 4 × 13 names give 52 cards. Card i of `FreshDeck` is real and has the suit name i / 13 and the rank name i % 13, which is the `flatMap` order: suit by suit, rank by rank. |
| Cards.FreshDeckIsComplete | server.js:69 | The deck built from every suit and rank has no repeated card and holds exactly the real cards. |
| Cards.ShuffleFrom | server.js:14 | The remaining passes of the shuffle keep the length; ShuffleFromPermutes states that they keep the elements. |
| Cards.Shuffled | server.js:14 | The whole shuffle keeps the length; ShuffledPermutes states that it is a permutation. |
| Cards.ShuffleFromPermutes | server.js:14 | Every remaining pass of the shuffle keeps the multiset of elements. |
| Cards.ShuffledPermutes | server.js:14 | The whole Fisher–Yates shuffle is a permutation of its input. |
| Cards.Shuffle | server.js:14 | The in-place loop swaps position i with picks[i] from the last index down to 1. The array ends as the functional `Shuffled` of its old contents, with the same multiset. |
| Cards.DeckIntegrity | server.js:69-72 | Deck, community and dealt cards that together rearrange the fresh deck hold 52 cards in all. None is repeated, none is in two places, and all are real cards. |
| Players.FindSeat | server.js:41 | The result is -1 exactly when no seat has the id; otherwise it is the first seat holding that id. |
| Players.SeatOfSeated | server.js:27 | With distinct ids, looking up a seated player's id finds that player's seat. |
| Players.SameIdsSameSeat | server.js:67 | Tables with the same ids seat by seat give every id the same seat, so clearing flags keeps seats. |
| Players.UnfoldedSeatsExact | server.js:81 | `UnfoldedSeats` (the `filter`): the unfolded seats are exactly the seats whose player has not folded, each once, in increasing order. |
| Players.SameFoldsSameSeats | server.js:81 | The unfolded seats depend on the folded flags alone. |
| Players.FoldRemovesOne | server.js:44 | Folding an unfolded player removes exactly one unfolded seat. |
| Players.TwoUnfolded | server.js:81 | Two unfolded players give at least two unfolded seats. |
| Players.FirstToActSeated | server.js:94 | `FirstToAct` (the first unfolded player's id, or seat 0's id when that one is missing or empty): the player given the turn after a phase advance is seated. |
| Players.FirstToActIsFirstUnfolded | server.js:94 | When no id is empty, the player `FirstToAct` picks is the first unfolded one in seating order. |
| Players.NextTurnSeat | server.js:98-99 | The `do … while` loop terminates when someone is unfolded. Its result is the first unfolded seat strictly after the old one, wrapping around. |
| Players.RotationSkipsFolded | server.js:98-99 | At four seats with only the second folded, the turn passes from the first seat to the third. |
| Players.NextUnfoldedUnique | server.js:99 | The rotation's result is unique. |
| Players.NextUnfoldedNotSelf | server.js:99 | With two or more unfolded players, the turn never returns to the same seat. |
| Players.WinnerSeat | server.js:84 | The winner is an unfolded player, and is the only one when just one is unfolded. |
| Players.WinnerCanBeAnyContender | server.js:84 | Every unfolded player is the winner for some draw. |
| Players.TotalAfterAdjust | server.js:85 | Adding delta to one stack adds delta to the chip total. |
| Players.TotalAfterSeatChange | server.js:48-49 | Replacing one player's record changes the chip total by the change in that player's chips. |
| Players.SeatingKeepsTurn | server.js:28 | Seating a new unfolded id at the end keeps ids distinct and puts the newcomer in the last seat. A well-placed turn stays well placed. |
| Players.ActionKeepsTurn | server.js:44-45 | An action that changes only the actor's record and at most sets `folded` keeps ids distinct and the turn well placed. |
| Players.SameIdsAndFoldsKeepTurn | server.js:85 | Changing anything but ids and folded flags keeps ids distinct and the turn well placed. |
| Rooms.NextPhase | server.js:92 | Before the river the phase steps one forward and the community count grows 0, 3, 4, 5. The river maps to itself. |
| Rooms.HoleCardsDistinct | server.js:69-71 | Cards popped two by two off a rearranged fresh deck are real, pairwise distinct across all hands, and none is left in the deck. |
| Rooms.DealHoleCards | server.js:71 | Player i gets the cards 2i and 2i+1 from the top of the deck, in pop order. The rest of the deck is what lies below them. |
| Rooms.ActionEffect | server.js:44-52 | About `Acted` (the actor's new record), `Staked` (the chips moved to the pot) and `RaisedBet` (the new current bet): The stake leaves the player's stack. Only a bet the player can cover stakes anything, exactly its amount; a bet above the stack changes nothing. A fold sets only `folded` and a check only `called`. The current bet becomes the larger of itself and a covered bet's amount. |
| Rooms.ShuffledDeck | server.js:69 | The dealt deck is the fresh deck shuffled with the draws, and a rearrangement of it. |
| Rooms.RoundOverExact | server.js:81-82 | `RoundOver` (the `filter` length test or the `every` of `AllFoldedOrCalled`) holds exactly when at most one seat is unfolded or every seat the filter keeps has checked. |
| Rooms.UnactedPlayerKeepsRoundOpen | server.js:82 | One more player who has neither folded nor checked, next to someone still in, keeps the round open. |
| Rooms.EnoughCardsToReveal | server.js:90-91 | Before the river the deck holds enough cards for the next reveal. |
| Rooms.ShuffledDeckSplit | server.js:69-72 | The part of the shuffled deck left behind plus the part dealt is the whole fresh deck. |
| Rooms.RevealKeepsCards | server.js:90-91 | Moving the top cards of the deck to the community keeps every card accounted for. |
| Rooms.Room.constructor | server.js:22 | A new room has its owner and starting chips, no players, pot 0 and the preflop phase. |
| Rooms.Room.Seat | server.js:27-29 | An id not yet seated is appended with the room's starting chips, unfolded and unchecked. A seated id changes nothing, and the room invariant is kept. |
| Rooms.Room.ClearFlags | server.js:67 | Every player keeps everything but `folded` and `called`, which are cleared. |
| Rooms.Room.ResetAndDeal | server.js:64-75 | Pot and bet are 0, the phase is preflop and flags are cleared. The deck is what remains below the 2n popped cards of the shuffled fresh deck. Community is empty and seat 0 has the turn. The invariant is kept. |
| Rooms.Room.FreshHandIsWellDealt | server.js:69-72 | Right after a deal the deck holds 52 - 2n cards, and no card is dealt twice or both dealt and in the deck. |
| Rooms.Room.FreshHandKeepsSeats | server.js:67 | A fresh hand keeps every id's seat and the last player's record apart from the flags. |
| Rooms.Room.FreshHandIsValid | server.js:64-75 | A fresh deal over two or more players with distinct ids satisfies the room invariant. |
| Rooms.Room.ApplyAction | server.js:44-52 | Only the actor's record, the pot and the current bet change, as `Acted`, `Staked` and `RaisedBet` give. Chips plus pot is conserved and the invariant is kept. |
| Rooms.Room.PayWinner | server.js:83-85 | The drawn unfolded winner's chips grow by the pot. Pot, phase, turn and cards stay, so chips plus pot grow by the pot. |
| Rooms.Room.RevealNext | server.js:88-94 | The top 3 cards (preflop) or top card (later) move from the end of the deck to the community, in order. The phase steps forward and the first unfolded player gets the turn. |
| Rooms.Room.PassTurn | server.js:97-100 | The turn moves to the first unfolded seat after the current one, wrapping around, and never stays put. |
| Rooms.Room.CheckRoundEnd | server.js:80-103 | If the round is over and the phase is the river or one player is unfolded, the pot is credited to the winner and nothing else moves. If the round is over otherwise, cards are revealed and the phase advances. If it is not over, the turn rotates to a different unfolded seat. |
| Rooms.BetThenFold | server.js:39-103 | Two players join with 1000 chips; the first bets 50 and the second folds. The bettor ends with 1000 chips, unfolded and unchecked; the folder with 1000 chips, folded; the pot still reads 50. |
| Server.RoomTable.constructor | server.js:10 | The server starts with no rooms. |
| Server.RoomTable.StartHand | server.js:60-62 | A missing room or fewer than two players changes nothing. Otherwise that room alone is reset and dealt, and the hole cards are returned. |
| Server.RoomTable.OpenRoom | server.js:21-24 | The room under the id is found, or created with the joiner as owner, the starting chips, no players, pot 0 and preflop. Other rooms are kept. |
| Server.RoomTable.SeatAndDeal | server.js:27-35 | The joiner ends up seated, appended with the starting chips if new. A hand starts exactly when two or more are seated, and the room is then a fresh hand over the seated players: pot 0, preflop, flags cleared, a new deal, seat 0 to act. Otherwise the room holds the seated players and its pot, phase, turn, deck and community are kept. Other rooms are unchanged. |
| Server.RoomTable.Join | server.js:18-35 | The room id is the given one or the generated one, and other rooms are unchanged. A new room holds only the joiner, and no hand starts. A full room is left unchanged. Otherwise the joiner is seated (a new id last, with the starting chips), and a hand starts exactly when two or more are seated; the room is then a fresh hand over the seated players (pot 0, preflop, flags cleared, a new deal), and otherwise keeps its pot, phase, turn, deck and community with the seated players. |
| Server.RoomTable.Action | server.js:39-56 | An action is applied exactly when the room exists, the user is seated and it is the user's turn. Otherwise no room changes, and no other room ever changes. |

## Left out

- Transport: the HTTP and socket server, `socket.join` and every `emit`. Start-hand returns the hole cards that the server would emit.
- `uuidv4()` is a foreign library call. The id it would produce is the `generatedId` parameter of `Join`, and collisions with existing rooms are not modelled.
- `Math.random` (the shuffle and the showdown draw): the draws are parameters, as described above. Floating point is not modelled.
- The delayed restart after a showdown (`setTimeout`) is a timer and is not modelled. It calls `startHand(room.roomId)` with an id that is never set, so it finds no room in the model's terms. A room literally named `"undefined"` would be restarted by it, which the model does not capture.
- JavaScript numbers are modelled as unbounded integers. Non-numeric or missing bet amounts, a `startingChips` that is not a number, and a non-string action name are not modelled. Any other action name is `Unknown` and changes no player record.
- Object keys that are not own properties of `rooms` (prototype names such as `"constructor"`) are not modelled. The table is a plain map.
- A new room's `currentBet` is undefined in the server and 0 in the model. The difference cannot be observed: it is set to 0 before any action is accepted.
- The winner object aliases an entry of `room.players`. The model credits the winner by seat index, which has the same effect.
- The hole cards are an object keyed by user id in the server and a sequence in seating order in the model. With distinct ids the two hold the same pairs.
- The crash when no player is unfolded at the river (`active[0]` undefined) is excluded. The room invariant proves such a state unreachable while a hand runs.
- Server.RoomTable.Action: its own contract states acceptance and the frame only. The effect on the room is the composition of `Rooms.Room.ApplyAction` and `Rooms.Room.CheckRoundEnd`, whose contracts state it.
