// The seated players of a room and the queries the server runs over them: finding a
// seat by user id, the unfolded players, the round-over test, the turn rotation and the
// winner draw, and the chip total used to state conservation.
module Players {

  /** A seated player. `called` is set by a check and counts toward ending the round. */
  datatype Player = Player(userId: string, username: string, chips: int, folded: bool, called: bool)

  /** No user id is seated twice. */
  predicate DistinctIds(players: seq<Player>) {
    forall i, j :: 0 <= i < j < |players| ==> players[i].userId != players[j].userId
  }

  /** The first seat of a player with this user id, or -1 when nobody has it. */
  function FindSeat(players: seq<Player>, id: string): (r: int)
    ensures -1 <= r < |players|
    ensures r == -1 <==> forall i :: 0 <= i < |players| ==> players[i].userId != id
    ensures r >= 0 ==> players[r].userId == id
    ensures r >= 0 ==> forall i :: 0 <= i < r ==> players[i].userId != id
  {
    if players == [] then -1
    else if players[0].userId == id then 0
    else
      var r := FindSeat(players[1..], id);
      if r == -1 then -1 else r + 1
  }

  /** With distinct ids, the seat found for a seated player's id is that player's seat. */
  lemma SeatOfSeated(players: seq<Player>, i: nat)
    requires DistinctIds(players) && i < |players|
    ensures FindSeat(players, players[i].userId) == i
  {
  }

  /** Two tables with the same ids seat by seat give every id the same seat. */
  lemma {:induction false} SameIdsSameSeat(ps: seq<Player>, qs: seq<Player>, id: string)
    requires |ps| == |qs| && forall i :: 0 <= i < |ps| ==> ps[i].userId == qs[i].userId
    ensures FindSeat(ps, id) == FindSeat(qs, id)
  {
    if ps != [] && ps[0].userId != id {
      SameIdsSameSeat(ps[1..], qs[1..], id);
    }
  }

  /** The seats of the players who have not folded, in seating order. */
  function UnfoldedSeats(players: seq<Player>): seq<nat> {
    if players == [] then []
    else
      var n := |players| - 1;
      UnfoldedSeats(players[..n]) + (if players[n].folded then [] else [n])
  }

  /** The unfolded seats of a table of two. */
  lemma UnfoldedOfTwo(a: Player, b: Player)
    ensures UnfoldedSeats([a, b]) == (if a.folded then [] else [0]) + (if b.folded then [] else [1])
  {
    assert [a, b][..1] == [a] && [a][..0] == [];
    assert UnfoldedSeats([a]) == [] + (if a.folded then [] else [0]);
  }

  /**
   * The unfolded seats are exactly the seats of the players who have not folded, each
   * once and in increasing order.
   */
  lemma {:induction false} UnfoldedSeatsExact(players: seq<Player>)
    ensures var seats := UnfoldedSeats(players);
      |seats| <= |players| &&
      (forall k :: 0 <= k < |seats| ==> seats[k] < |players| && !players[seats[k]].folded) &&
      (forall i :: 0 <= i < |players| && !players[i].folded ==> i in seats) &&
      (forall k, l :: 0 <= k < l < |seats| ==> seats[k] < seats[l])
  {
    if players != [] {
      var n := |players| - 1;
      UnfoldedSeatsExact(players[..n]);
    }
  }

  /** The unfolded seats depend on the folded flags alone. */
  lemma {:induction false} SameFoldsSameSeats(ps: seq<Player>, qs: seq<Player>)
    requires |ps| == |qs|
    requires forall i :: 0 <= i < |ps| ==> ps[i].folded == qs[i].folded
    ensures UnfoldedSeats(ps) == UnfoldedSeats(qs)
  {
    if ps != [] {
      var n := |ps| - 1;
      SameFoldsSameSeats(ps[..n], qs[..n]);
    }
  }

  /** Folding an unfolded player removes exactly one seat from the unfolded ones. */
  lemma {:induction false} FoldRemovesOne(ps: seq<Player>, i: nat)
    requires i < |ps| && !ps[i].folded
    ensures |UnfoldedSeats(ps[i := ps[i].(folded := true)])| == |UnfoldedSeats(ps)| - 1
  {
    var qs := ps[i := ps[i].(folded := true)];
    var n := |ps| - 1;
    if i == n {
      assert qs[..n] == ps[..n];
    } else {
      assert qs[..n] == ps[..n][i := ps[i].(folded := true)];
      FoldRemovesOne(ps[..n], i);
    }
  }

  /** Two unfolded players mean at least two unfolded seats. */
  lemma TwoUnfolded(players: seq<Player>, i: nat, j: nat)
    requires i < j < |players| && !players[i].folded && !players[j].folded
    ensures |UnfoldedSeats(players)| >= 2
  {
    var seats := UnfoldedSeats(players);
    UnfoldedSeatsExact(players);
    assert i in seats && j in seats;
    var k :| 0 <= k < |seats| && seats[k] == i;
    var l :| 0 <= l < |seats| && seats[l] == j;
    assert k != l;
  }

  /**
   * Who acts first after a phase advance: the first player who has not folded, or the
   * first seated player when nobody is unfolded or that player's id is the empty string
   * (the JavaScript `||` fallback).
   */
  function FirstToAct(players: seq<Player>): string
    requires |players| >= 1
  {
    UnfoldedSeatsExact(players);
    var seats := UnfoldedSeats(players);
    if |seats| > 0 && players[seats[0]].userId != "" then players[seats[0]].userId
    else players[0].userId
  }

  /** The player who acts first after a phase advance is seated. */
  lemma FirstToActSeated(players: seq<Player>)
    requires |players| >= 1
    ensures FindSeat(players, FirstToAct(players)) >= 0
  {
    UnfoldedSeatsExact(players);
    var seats := UnfoldedSeats(players);
    if |seats| > 0 && players[seats[0]].userId != "" {
      assert players[seats[0]].userId == FirstToAct(players);
    } else {
      assert players[0].userId == FirstToAct(players);
    }
  }

  /**
   * When nobody's id is empty, the player who acts first after a phase advance is the
   * first unfolded player in seating order.
   */
  lemma FirstToActIsFirstUnfolded(players: seq<Player>)
    requires DistinctIds(players) && |UnfoldedSeats(players)| >= 1
    requires forall i :: 0 <= i < |players| ==> players[i].userId != ""
    ensures |players| >= 1
    ensures var f := FindSeat(players, FirstToAct(players));
      f >= 0 && !players[f].folded && forall i :: 0 <= i < f ==> players[i].folded
  {
    UnfoldedSeatsExact(players);
    var seats := UnfoldedSeats(players);
    SeatOfSeated(players, seats[0]);
  }

  /** Every seated player has either folded or checked (the round is over). */
  predicate AllFoldedOrCalled(players: seq<Player>) {
    forall i :: 0 <= i < |players| ==> players[i].folded || players[i].called
  }

  /** The seat reached from seat `from` after k steps (at most one lap) around a table of n seats. */
  function SeatAfter(from: nat, k: nat, n: nat): (s: nat)
    requires from < n && k <= n
    ensures s < n
  {
    if from + k < n then from + k else from + k - n
  }

  /** A number below the modulus is its own remainder. */
  lemma ModSmall(k: nat, m: nat)
    requires k < m
    ensures k % m == k
  {
  }

  /** One step clockwise from seat x: the next seat, or seat 0 after the last. */
  lemma WrapStep(x: nat, n: nat)
    requires x < n
    ensures (x + 1) % n == if x + 1 < n then x + 1 else 0
  {
  }

  /**
   * idx is the first unfolded seat strictly after `from` in seating order, wrapping
   * around (reaching `from` itself only after a full lap).
   */
  ghost predicate IsNextUnfolded(players: seq<Player>, from: nat, idx: nat)
    requires from < |players|
  {
    var n := |players|;
    exists k :: 1 <= k <= n && idx == SeatAfter(from, k, n) && !players[idx].folded &&
      forall j :: 1 <= j < k ==> players[SeatAfter(from, j, n)].folded
  }

  /** How many steps it takes to go from seat `from` to seat s: between 1 and n. */
  lemma StepsTo(from: nat, s: nat, n: nat) returns (k: nat)
    requires from < n && s < n
    ensures 1 <= k <= n && SeatAfter(from, k, n) == s
    ensures s != from ==> k < n
  {
    k := if s > from then s - from else s + n - from;
  }

  /**
   * The turn rotation: step from seat `from` to the next seat, wrapping around, and keep
   * stepping while the player there has folded.
   */
  method NextTurnSeat(players: seq<Player>, from: nat) returns (idx: nat)
    requires from < |players|
    requires |UnfoldedSeats(players)| >= 1
    ensures idx < |players|
    ensures IsNextUnfolded(players, from, idx)
  {
    var n := |players|;
    UnfoldedSeatsExact(players);
    var s := UnfoldedSeats(players)[0];
    ghost var k := 1;
    WrapStep(from, n);
    idx := (from + 1) % n;
    while players[idx].folded
      invariant 1 <= k <= n
      invariant idx == SeatAfter(from, k, n)
      invariant forall j :: 1 <= j < k ==> players[SeatAfter(from, j, n)].folded
      decreases n - k
    {
      var toS := StepsTo(from, s, n);
      assert k < toS;
      WrapStep(idx, n);
      idx := (idx + 1) % n;
      k := k + 1;
    }
  }

  /**
   * An example of the rotation: at a table of four where only the second seat has
   * folded, the turn passes from the first seat to the third.
   */
  lemma RotationSkipsFolded(a: Player, b: Player, c: Player, d: Player)
    requires !a.folded && b.folded && !c.folded && !d.folded
    ensures IsNextUnfolded([a, b, c, d], 0, 2)
  {
    var players := [a, b, c, d];
    assert SeatAfter(0, 1, 4) == 1 && SeatAfter(0, 2, 4) == 2;
    assert forall j :: 1 <= j < 2 ==> players[SeatAfter(0, j, 4)].folded;
  }

  /** The rotation's result is determined: there is only one next unfolded seat. */
  lemma NextUnfoldedUnique(players: seq<Player>, from: nat, a: nat, b: nat)
    requires from < |players|
    requires IsNextUnfolded(players, from, a) && IsNextUnfolded(players, from, b)
    ensures a == b
  {
    var n := |players|;
    var ka :| 1 <= ka <= n && a == SeatAfter(from, ka, n) && !players[a].folded &&
      forall j :: 1 <= j < ka ==> players[SeatAfter(from, j, n)].folded;
    var kb :| 1 <= kb <= n && b == SeatAfter(from, kb, n) && !players[b].folded &&
      forall j :: 1 <= j < kb ==> players[SeatAfter(from, j, n)].folded;
  }

  /** With at least two unfolded players the turn never stays with the same seat. */
  lemma NextUnfoldedNotSelf(players: seq<Player>, from: nat, idx: nat)
    requires from < |players|
    requires |UnfoldedSeats(players)| >= 2
    requires IsNextUnfolded(players, from, idx)
    ensures idx != from
  {
    var n := |players|;
    var seats := UnfoldedSeats(players);
    UnfoldedSeatsExact(players);
    var other := if seats[0] != from then seats[0] else seats[1];
    assert other != from && !players[other].folded;
    var k :| 1 <= k <= n && idx == SeatAfter(from, k, n) && !players[idx].folded &&
      forall j :: 1 <= j < k ==> players[SeatAfter(from, j, n)].folded;
    var toOther := StepsTo(from, other, n);
  }

  /**
   * The showdown winner: the only unfolded player when there is one, otherwise the
   * unfolded player drawn by `roll` (the random draw, reduced to an index).
   */
  function WinnerSeat(players: seq<Player>, roll: nat): (w: nat)
    requires |UnfoldedSeats(players)| >= 1
    ensures w < |players| && !players[w].folded
    ensures |UnfoldedSeats(players)| == 1 ==>
      forall i :: 0 <= i < |players| && !players[i].folded ==> i == w
  {
    var active := UnfoldedSeats(players);
    UnfoldedSeatsExact(players);
    if |active| == 1 then active[0] else active[roll % |active|]
  }

  /** Any unfolded player can be the one the draw picks. */
  lemma WinnerCanBeAnyContender(players: seq<Player>, i: nat) returns (roll: nat)
    requires i < |players| && !players[i].folded
    ensures |UnfoldedSeats(players)| >= 1 && WinnerSeat(players, roll) == i
  {
    var active := UnfoldedSeats(players);
    UnfoldedSeatsExact(players);
    assert i in active;
    var k :| 0 <= k < |active| && active[k] == i;
    roll := k;
    ModSmall(k, |active|);
  }

  /** The chips held by all seated players together. */
  function TotalChips(players: seq<Player>): int {
    if players == [] then 0
    else TotalChips(players[..|players| - 1]) + players[|players| - 1].chips
  }

  /** Adding delta to one player's stack adds delta to the total. */
  lemma {:induction false} TotalAfterAdjust(ps: seq<Player>, i: nat, delta: int)
    requires i < |ps|
    ensures TotalChips(ps[i := ps[i].(chips := ps[i].chips + delta)]) == TotalChips(ps) + delta
  {
    var qs := ps[i := ps[i].(chips := ps[i].chips + delta)];
    var n := |ps| - 1;
    if i == n {
      assert qs[..n] == ps[..n];
    } else {
      assert qs[..n] == ps[..n][i := ps[i].(chips := ps[i].chips + delta)];
      TotalAfterAdjust(ps[..n], i, delta);
    }
  }

  /** The total depends on the stacks alone, not on names or flags. */
  lemma {:induction false} SameChipsSameTotal(ps: seq<Player>, qs: seq<Player>)
    requires |ps| == |qs|
    requires forall i :: 0 <= i < |ps| ==> ps[i].chips == qs[i].chips
    ensures TotalChips(ps) == TotalChips(qs)
  {
    if ps != [] {
      var n := |ps| - 1;
      SameChipsSameTotal(ps[..n], qs[..n]);
    }
  }

  /** Replacing the player at one seat changes the total by the change in that stack. */
  lemma TotalAfterSeatChange(ps: seq<Player>, seat: nat, q: Player)
    requires seat < |ps|
    ensures TotalChips(ps[seat := q]) == TotalChips(ps) + q.chips - ps[seat].chips
  {
    var delta := q.chips - ps[seat].chips;
    TotalAfterAdjust(ps, seat, delta);
    SameChipsSameTotal(ps[seat := q], ps[seat := ps[seat].(chips := ps[seat].chips + delta)]);
  }

  /**
   * The turn is well placed: the player whose turn it is is seated, someone has not
   * folded, and if that player has not folded they are not the only one.
   */
  ghost predicate TurnInvariant(players: seq<Player>, current: string) {
    var cur := FindSeat(players, current);
    var active := UnfoldedSeats(players);
    cur >= 0 && |active| >= 1 && (!players[cur].folded ==> |active| >= 2)
  }

  /**
   * Seating a new, unfolded player at the end keeps ids distinct, gives the newcomer
   * the last seat, and keeps a well-placed turn well placed.
   */
  lemma SeatingKeepsTurn(ps: seq<Player>, p: Player, current: string)
    requires DistinctIds(ps) && FindSeat(ps, p.userId) < 0 && !p.folded
    ensures DistinctIds(ps + [p]) && FindSeat(ps + [p], p.userId) == |ps|
    ensures TurnInvariant(ps, current) ==> TurnInvariant(ps + [p], current)
  {
    var qs := ps + [p];
    assert qs[..|ps|] == ps;
    SeatOfSeated(qs, |ps|);
    if TurnInvariant(ps, current) {
      SeatOfSeated(qs, FindSeat(ps, current));
    }
  }

  /**
   * An action changes only the acting player's record, keeps their id and at most sets
   * `folded`: ids stay distinct and the turn stays well placed.
   */
  lemma ActionKeepsTurn(ps: seq<Player>, qs: seq<Player>, seat: nat)
    requires seat < |ps| == |qs| && DistinctIds(ps) && TurnInvariant(ps, ps[seat].userId)
    requires forall i :: 0 <= i < |ps| && i != seat ==> qs[i] == ps[i]
    requires qs[seat].userId == ps[seat].userId
    requires qs[seat].folded == ps[seat].folded || qs[seat].folded
    ensures DistinctIds(qs) && TurnInvariant(qs, qs[seat].userId)
  {
    SeatOfSeated(ps, seat);
    assert DistinctIds(qs) by {
      forall i, j | 0 <= i < j < |qs| ensures qs[i].userId != qs[j].userId {
        assert ps[i].userId != ps[j].userId;
      }
    }
    SeatOfSeated(qs, seat);
    if qs[seat].folded == ps[seat].folded {
      SameFoldsSameSeats(qs, ps);
    } else {
      SameFoldsSameSeats(qs, ps[seat := ps[seat].(folded := true)]);
      FoldRemovesOne(ps, seat);
    }
  }

  /** Changing anything but ids and folded flags keeps ids distinct and the turn well placed. */
  lemma SameIdsAndFoldsKeepTurn(ps: seq<Player>, qs: seq<Player>, current: string)
    requires |ps| == |qs| && DistinctIds(ps) && TurnInvariant(ps, current)
    requires forall i :: 0 <= i < |ps| ==> qs[i].userId == ps[i].userId && qs[i].folded == ps[i].folded
    ensures DistinctIds(qs) && TurnInvariant(qs, current)
  {
    var cur := FindSeat(ps, current);
    assert DistinctIds(qs) by {
      forall i, j | 0 <= i < j < |qs| ensures qs[i].userId != qs[j].userId {
        assert ps[i].userId != ps[j].userId;
      }
    }
    SeatOfSeated(qs, cur);
    SameFoldsSameSeats(qs, ps);
  }
}
