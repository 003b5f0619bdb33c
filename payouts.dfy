// The payout tables of both servers: a fixed 6% house edge, the remaining 94%
// split among the top finishers by a share table that depends only on the
// number of players.  Amounts are exact reals (the JavaScript float rounding is
// not reproduced).

module Payouts {
  import opened Common

  const HouseEdge: real := 0.06
  const PlayerPayout: real := 0.94
  /** server.js: no credit below one dollar (compared in cents). */
  const MinimumPayout: real := 1.00

  /** Share of the player pot for positions 1, 2, ... by player count. */
  function Shares(playerCount: int): (s: seq<real>)
    ensures 2 <= playerCount <= 6 ==> |s| == playerCount - 1
    ensures !(2 <= playerCount <= 6) ==> s == []
  {
    if playerCount == 2 then [1.0]
    else if playerCount == 3 then [0.70, 0.30]
    else if playerCount == 4 then [0.50, 0.30, 0.20]
    else if playerCount == 5 then [0.40, 0.25, 0.20, 0.15]
    else if playerCount == 6 then [0.35, 0.25, 0.20, 0.12, 0.08]
    else []
  }

  function Sum(s: seq<real>): real {
    if s == [] then 0.0 else s[0] + Sum(s[1..])
  }

  /** `pot * share` for every share. */
  function Scale(pot: real, shares: seq<real>): (r: seq<real>)
    ensures |r| == |shares|
    ensures forall i :: 0 <= i < |r| ==> r[i] == pot * shares[i]
  {
    if shares == [] then [] else [pot * shares[0]] + Scale(pot, shares[1..])
  }

  /** `payouts[position]`: positions are 1-based; anything else reads `undefined`. */
  function AmountAt(payouts: seq<real>, position: int): (a: Option<real>)
    ensures a.Some? <==> 1 <= position <= |payouts|
    ensures a.Some? ==> a.value == payouts[position - 1]
  {
    if 1 <= position <= |payouts| then Some(payouts[position - 1]) else None
  }

  /** The result of server_new.js `calculatePayouts`, in dollars. */
  datatype PayoutStructure = PayoutStructure(totalPot: real, houseTake: real, playerPot: real,
                                             payouts: seq<real>)

  /** `calculatePayouts(prizePoolCents, playerCount)`. */
  function CalculatePayouts(prizePoolCents: int, playerCount: int): (r: PayoutStructure)
    ensures r.totalPot == prizePoolCents as real / 100.0
    ensures r.houseTake == HouseEdge * r.totalPot && r.playerPot == PlayerPayout * r.totalPot
    ensures r.houseTake + r.playerPot == r.totalPot
    ensures 2 <= playerCount <= 6 ==> |r.payouts| == playerCount - 1
    ensures !(2 <= playerCount <= 6) ==> r.payouts == []
  {
    var dollars := prizePoolCents as real / 100.0;
    var playerPot := dollars * PlayerPayout;
    PayoutStructure(dollars, dollars * HouseEdge, playerPot, Scale(playerPot, Shares(playerCount)))
  }

  /** The result server.js `calculateTournamentPayouts` means to return, in cents. */
  datatype Tournament = Tournament(totalPot: real, houseTake: real, playerPot: real,
                                   payouts: seq<real>, entryFee: int, playerCount: int)

  /** `calculateTournamentPayouts` as written: building its result reads the undeclared
      identifier `totalPot`, so every call throws. */
  function TournamentPayoutsAsWritten(prizePool: int, playerCount: int): Result<Tournament> {
    Threw(ReferenceError("totalPot"))
  }

  /** `calculateTournamentPayouts` with `totalPot` read as the prize pool and the breakdown's
      `entryFee` supplied by the caller. All amounts are in cents. */
  function TournamentPayouts(prizePool: int, playerCount: int, entryFee: int): (t: Tournament)
    ensures t.totalPot == prizePool as real
    ensures t.houseTake == HouseEdge * t.totalPot && t.playerPot == PlayerPayout * t.totalPot
    ensures t.houseTake + t.playerPot == t.totalPot
    ensures 2 <= playerCount <= 6 ==> |t.payouts| == playerCount - 1
    ensures !(2 <= playerCount <= 6) ==> t.payouts == []
  {
    var pool := prizePool as real;
    var playerPot := pool * PlayerPayout;
    Tournament(pool, pool * HouseEdge, playerPot, Scale(playerPot, Shares(playerCount)),
               entryFee, playerCount)
  }

  // ---- properties ----

  lemma {:induction false} SumScale(c: real, s: seq<real>)
    ensures Sum(Scale(c, s)) == c * Sum(s)
  {
    if s != [] {
      SumScale(c, s[1..]);
      assert Scale(c, s)[1..] == Scale(c, s[1..]);
    }
  }

  /** Every share table for 2 to 6 players distributes exactly the whole pot. */
  lemma SharesSumToOne(playerCount: int)
    requires 2 <= playerCount <= 6
    ensures Sum(Shares(playerCount)) == 1.0
  {
    var s := Shares(playerCount);
    // Sum the literal tables from the last share backwards.
    assert Sum(s[|s| - 1..]) == s[|s| - 1];
    if playerCount >= 3 {
      assert Sum(s[|s| - 2..]) == s[|s| - 2] + Sum(s[|s| - 1..]);
    }
    if playerCount >= 4 {
      assert Sum(s[|s| - 3..]) == s[|s| - 3] + Sum(s[|s| - 2..]);
    }
    if playerCount >= 5 {
      assert Sum(s[|s| - 4..]) == s[|s| - 4] + Sum(s[|s| - 3..]);
    }
    if playerCount >= 6 {
      assert Sum(s[|s| - 5..]) == s[|s| - 5] + Sum(s[|s| - 4..]);
    }
    assert s[0..] == s;
  }

  /** The payouts of server_new.js add up to the player pot for 2 to 6 players. */
  lemma PayoutsSumToPlayerPot(prizePoolCents: int, playerCount: int)
    requires 2 <= playerCount <= 6
    ensures var r := CalculatePayouts(prizePoolCents, playerCount);
            Sum(r.payouts) == r.playerPot
  {
    var r := CalculatePayouts(prizePoolCents, playerCount);
    SumScale(r.playerPot, Shares(playerCount));
    SharesSumToOne(playerCount);
  }

  /** The same holds, in cents, for the intended server.js table. */
  lemma TournamentSumsToPlayerPot(prizePool: int, playerCount: int, entryFee: int)
    requires 2 <= playerCount <= 6
    ensures var t := TournamentPayouts(prizePool, playerCount, entryFee);
            Sum(t.payouts) == t.playerPot
  {
    var t := TournamentPayouts(prizePool, playerCount, entryFee);
    SumScale(t.playerPot, Shares(playerCount));
    SharesSumToOne(playerCount);
  }

  /** A better position never earns less: each table is non-increasing when the pool is not negative. */
  lemma PayoutsNonIncreasing(prizePoolCents: int, playerCount: int, i: nat)
    requires prizePoolCents >= 0
    requires i + 1 < |CalculatePayouts(prizePoolCents, playerCount).payouts|
    ensures var p := CalculatePayouts(prizePoolCents, playerCount).payouts;
            p[i] >= p[i + 1] >= 0.0
  {
    var s := Shares(playerCount);
    assert s[i] >= s[i + 1] >= 0.0;
    var pot := CalculatePayouts(prizePoolCents, playerCount).playerPot;
    assert pot >= 0.0;
    assert pot * s[i] - pot * s[i + 1] == pot * (s[i] - s[i + 1]);
  }

  /** The two servers use one table: server.js amounts in cents are 100 times the server_new.js
      amounts in dollars, position by position. */
  lemma TablesAgree(prizePool: int, playerCount: int, entryFee: int, i: nat)
    requires i < |Shares(playerCount)|
    ensures TournamentPayouts(prizePool, playerCount, entryFee).payouts[i] ==
            100.0 * CalculatePayouts(prizePool, playerCount).payouts[i]
  {
    var s := Shares(playerCount)[i];
    var p := prizePool as real;
    assert p * 0.94 * s == 100.0 * ((p / 100.0) * 0.94 * s);
  }

  /** Two players with a $10 fee (a $20 pool): the winner takes $18.80 and the house $1.20. */
  lemma HeadToHeadExample()
    ensures CalculatePayouts(2000, 2).payouts == [18.80]
    ensures CalculatePayouts(2000, 2).houseTake == 1.20
  {
  }

  /** Three players with a $20 fee (a $60 pool): $39.48 for first, $16.92 for second, nothing for third. */
  lemma ThreePlayerExample()
    ensures CalculatePayouts(6000, 3).payouts == [39.48, 16.92]
    ensures AmountAt(CalculatePayouts(6000, 3).payouts, 3) == None
  {
  }
}
