// The server's table of rooms and its three entry points: a player joining a room
// (creating it on first use), starting a hand in a room, and a player's action.
module Server {
  import opened Cards
  import opened Players
  import opened Rooms

  /** The chips a new room gives each player when the first joiner names no amount. */
  const DefaultStartingChips: int := 1000

  /** All rooms of the server, by room id. */
  class RoomTable {
    var rooms: map<string, Room>

    /** Every room keeps its invariant, and no room object is filed under two ids. */
    ghost predicate Valid()
      reads this, rooms.Values
    {
      (forall id :: id in rooms ==> rooms[id].Valid()) &&
      (forall a, b :: a in rooms && b in rooms && a != b ==> rooms[a] != rooms[b])
    }

    /** The server starts with no rooms. */
    constructor ()
      ensures Valid() && rooms == map[]
    {
      rooms := map[];
    }

    /**
     * Start a hand in a room: nothing happens when the room does not exist or has fewer
     * than two players; otherwise the room is reset and dealt (see Room.ResetAndDeal)
     * and the hole cards are returned. `picks` are the shuffle's random draws.
     */
    method StartHand(roomId: string, picks: seq<nat>) returns (hands: Option<seq<HoleCards>>)
      requires Valid() && ValidPicks(picks, 52)
      modifies rooms.Values
      ensures Valid() && rooms == old(rooms)
      ensures hands.Some? <==> roomId in rooms && |old(rooms[roomId].players)| >= 2
      ensures hands.None? ==> forall id :: id in rooms ==> unchanged(rooms[id])
      ensures hands.Some? ==> rooms[roomId].FreshHand(old(rooms[roomId].players), picks, hands.value)
      ensures hands.Some? ==>
        rooms[roomId].owner == old(rooms[roomId].owner) &&
        rooms[roomId].startingChips == old(rooms[roomId].startingChips)
      ensures forall id :: id in rooms && id != roomId ==> unchanged(rooms[id])
    {
      if roomId !in rooms {
        return None;
      }
      var room := rooms[roomId];
      if |room.players| < 2 {
        return None;
      }
      var dealt := room.ResetAndDeal(picks);
      hands := Some(dealt);
    }

    /**
     * The room filed under `id`, created first (with the given owner and starting chips,
     * no players, pot 0 and the preflop phase) when there is none.
     */
    method OpenRoom(id: string, owner: string, startingChips: int) returns (room: Room)
      requires Valid()
      modifies this
      ensures Valid() && id in rooms && room == rooms[id]
      ensures rooms.Keys == old(rooms.Keys) + {id}
      ensures forall other :: other in old(rooms) ==> rooms[other] == old(rooms[other])
      ensures id !in old(rooms) ==>
        fresh(room) && room.owner == owner && room.startingChips == startingChips &&
        room.players == [] && room.pot == 0 && room.phase == Preflop && room.currentPlayer == None
    {
      if id !in rooms {
        room := new Room(owner, startingChips);
        rooms := rooms[id := room];
      } else {
        room := rooms[id];
      }
    }

    /**
     * The part of a join after the room is found and not full: seat the player unless
     * already seated, then start a hand once two or more are seated.
     */
    method SeatAndDeal(id: string, userId: string, username: string, picks: seq<nat>)
      returns (hands: Option<seq<HoleCards>>)
      requires Valid() && id in rooms && |rooms[id].players| < MaxPlayers && ValidPicks(picks, 52)
      modifies rooms.Values
      ensures Valid() && rooms == old(rooms)
      ensures forall other :: other in rooms && other != id ==> unchanged(rooms[other])
      ensures rooms[id].owner == old(rooms[id].owner) && rooms[id].startingChips == old(rooms[id].startingChips)
      ensures FindSeat(rooms[id].players, userId) >= 0
      ensures hands.Some? <==> |rooms[id].players| >= 2
      ensures FindSeat(old(rooms[id].players), userId) < 0 ==>
        |rooms[id].players| == |old(rooms[id].players)| + 1 &&
        rooms[id].players[|rooms[id].players| - 1] == Player(userId, username, rooms[id].startingChips, false, false)
      ensures hands.None? ==>
        rooms[id].pot == old(rooms[id].pot) && rooms[id].phase == old(rooms[id].phase) &&
        rooms[id].currentPlayer == old(rooms[id].currentPlayer)
      ensures var seated := if FindSeat(old(rooms[id].players), userId) < 0
          then old(rooms[id].players) + [Player(userId, username, old(rooms[id].startingChips), false, false)]
          else old(rooms[id].players);
        (hands.Some? ==> rooms[id].FreshHand(seated, picks, hands.value)) &&
        (hands.None? ==>
           rooms[id].players == seated && rooms[id].deck == old(rooms[id].deck) &&
           rooms[id].community == old(rooms[id].community))
    {
      var room := rooms[id];
      room.Seat(userId, username);
      if |room.players| >= 2 {
        ghost var seated := room.players;
        hands := StartHand(id, picks);
        room.FreshHandKeepsSeats(seated, picks, hands.value, userId);
      } else {
        hands := None;
      }
    }

    /**
     * A player joins a room. The room id is the requested one, or `generatedId` (a new
     * unique id) when none was given; a missing room is created with the joiner as owner
     * and `startingChips`, or DefaultStartingChips when none was given. A full room
     * (MaxPlayers seated) turns the join away. A player not yet seated is added at the
     * end; once two or more are seated a new hand starts, dealt with `picks`.
     */
    method Join(roomId: string, generatedId: string, userId: string, username: string,
                startingChips: Option<int>, picks: seq<nat>)
      returns (id: string, hands: Option<seq<HoleCards>>)
      requires Valid() && ValidPicks(picks, 52)
      modifies this, rooms.Values
      ensures Valid()
      ensures id == (if roomId != "" then roomId else generatedId) && id in rooms
      ensures rooms.Keys == old(rooms.Keys) + {id}
      ensures forall other :: other in old(rooms) ==> rooms[other] == old(rooms[other])
      ensures forall other :: other in rooms && other != id ==> unchanged(rooms[other])
      ensures id !in old(rooms) ==>
        var chips := if startingChips.Some? then startingChips.value else DefaultStartingChips;
        fresh(rooms[id]) && rooms[id].owner == userId && rooms[id].startingChips == chips &&
        rooms[id].players == [Player(userId, username, chips, false, false)] &&
        rooms[id].pot == 0 && rooms[id].phase == Preflop && rooms[id].currentPlayer == None && hands.None?
      ensures id in old(rooms) && |old(rooms[id].players)| >= MaxPlayers ==>
        unchanged(rooms[id]) && hands.None?
      ensures !(id in old(rooms) && |old(rooms[id].players)| >= MaxPlayers) ==>
        FindSeat(rooms[id].players, userId) >= 0 &&
        (hands.Some? <==> |rooms[id].players| >= 2)
      ensures (id in old(rooms) && |old(rooms[id].players)| < MaxPlayers &&
               FindSeat(old(rooms[id].players), userId) < 0) ==>
        |rooms[id].players| == |old(rooms[id].players)| + 1 &&
        rooms[id].players[|rooms[id].players| - 1] ==
          Player(userId, username, rooms[id].startingChips, false, false)
      ensures id in old(rooms) && |old(rooms[id].players)| < MaxPlayers ==>
        var seated := if FindSeat(old(rooms[id].players), userId) < 0
          then old(rooms[id].players) + [Player(userId, username, old(rooms[id].startingChips), false, false)]
          else old(rooms[id].players);
        (hands.Some? ==> rooms[id].FreshHand(seated, picks, hands.value)) &&
        (hands.None? ==>
           rooms[id].players == seated && rooms[id].pot == old(rooms[id].pot) &&
           rooms[id].phase == old(rooms[id].phase) && rooms[id].currentPlayer == old(rooms[id].currentPlayer) &&
           rooms[id].deck == old(rooms[id].deck) && rooms[id].community == old(rooms[id].community))
    {
      id := if roomId != "" then roomId else generatedId;
      var chips := if startingChips.Some? then startingChips.value else DefaultStartingChips;
      var room := OpenRoom(id, userId, chips);
      if |room.players| >= MaxPlayers {
        return id, None;
      }
      hands := SeatAndDeal(id, userId, username, picks);
    }

    /**
     * A player's action in a room. It is ignored when the room does not exist, the user
     * is not seated there, or it is not the user's turn; otherwise it is applied (see
     * Room.ApplyAction) and the round-end step runs (see Room.CheckRoundEnd), with
     * `roll` as the showdown's random draw.
     */
    method Action(roomId: string, userId: string, kind: ActionKind, amount: int, roll: nat)
      returns (applied: bool)
      requires Valid()
      modifies rooms.Values
      ensures Valid() && rooms == old(rooms)
      ensures applied <==>
        roomId in rooms && FindSeat(old(rooms[roomId].players), userId) >= 0 &&
        old(rooms[roomId].currentPlayer) == Some(userId)
      ensures !applied ==> forall id :: id in rooms ==> unchanged(rooms[id])
      ensures forall id :: id in rooms && id != roomId ==> unchanged(rooms[id])
      ensures applied ==> rooms[roomId].currentPlayer.Some?
    {
      if roomId !in rooms {
        return false;
      }
      var room := rooms[roomId];
      var seat := FindSeat(room.players, userId);
      if seat < 0 || room.currentPlayer != Some(userId) {
        return false;
      }
      room.ApplyAction(seat, kind, amount);
      room.CheckRoundEnd(roll);
      applied := true;
    }
  }
}
