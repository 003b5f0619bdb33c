// server.js: the socket handlers over the global `rooms`, `players` and
// `userBalances` Maps.  Balances are in cents and keyed by account id, where
// `None` is the `null` id of a socket that never reported an account.  Timer
// callbacks are separate methods the environment calls.

module SocketServer {
  import opened Common
  import opened Puzzles
  import opened Ranking
  import opened Payouts
  import opened Rooms

  /** A connected socket: id, display name, the room it last entered, and its account. */
  datatype SocketPlayer = SocketPlayer(id: string, name: string, roomId: Option<string>,
                                       score: int, userId: Option<string>)

  /** Why a handler answered with an `error` event and changed nothing. */
  datatype Refusal =
    | PlayerNotFound | InsufficientBalance | RoomNotFound | NotAcceptingPlayers | RoomFull
    | AlreadyInRoom | NotHost | TooFewPlayers | GameNotActive | NoActivePuzzle

  datatype Outcome<+T> = Refused(reason: Refusal) | Done(value: T)

  /** The `submit_answer` reply. */
  datatype Verdict = Verdict(correct: bool, points: int, attempts: int, isFirstCorrect: bool)

  /** One entry of `payoutResults.payouts`: a credit, or an error for a player without an
      account id. Amounts are in cents. */
  datatype Receipt =
    | Paid(playerId: string, userId: string, position: int, amount: real)
    | NoAccount(playerId: string, position: int, amount: real)

  /** What `endGame` means to emit in `game_ended`. */
  datatype GameEnd = GameEnd(winner: string, rankings: seq<Standing>, table: Tournament,
                             receipts: seq<Receipt>, totalPaid: real)

  /** What one call of `endRound` leads to; a game-over carries what `endGame` emitted, or
      nothing when `endGame` found the game already over. */
  datatype RoundStep = NoSuchRoom | NextRoundScheduled | GameOver(result: Option<Result<GameEnd>>)

  /** `MINIMUM_PAYOUT * 100`: the smallest amount credited, in cents. */
  const MinimumPayoutCents: real := MinimumPayout * 100.0

  /** `userBalances.get(id) || 0`. */
  function Balance(balances: map<Option<string>, real>, id: Option<string>): real {
    if id in balances then balances[id] else 0.0
  }

  /** The account id a payout goes to: the player's `userId` when the player is still known
      and the id is truthy. */
  function AccountOf(players: map<string, SocketPlayer>, playerId: string): Option<string> {
    if playerId in players && players[playerId].userId.Some? && players[playerId].userId.value != ""
    then players[playerId].userId else None
  }

  /** The payout loop over `ranked`, whose first entry holds position `from + 1`: a position
      whose table amount is at least the minimum gets a credit receipt, or an error receipt
      when the player has no account; every other position gets nothing. */
  function Receipts(ranked: seq<Standing>, from: nat, table: seq<real>,
                    players: map<string, SocketPlayer>): (rs: seq<Receipt>)
    ensures forall i :: 0 <= i < |rs| ==>
              && from < rs[i].position <= from + |ranked|
              && rs[i].position <= |table|
              && rs[i].amount == table[rs[i].position - 1]
              && rs[i].amount >= MinimumPayoutCents
    ensures forall i, j :: 0 <= i < j < |rs| ==> rs[i].position < rs[j].position
    decreases |ranked|
  {
    if ranked == [] then []
    else
      var rest := Receipts(ranked[1..], from + 1, table, players);
      var amount := AmountAt(table, from + 1);
      if amount.Some? && amount.value >= MinimumPayoutCents then
        var account := AccountOf(players, ranked[0].playerId);
        var head := if account.Some? then Paid(ranked[0].playerId, account.value, from + 1, amount.value)
                    else NoAccount(ranked[0].playerId, from + 1, amount.value);
        [head] + rest
      else rest
  }

  /** One step of the payout loop: a qualifying first position puts its one receipt, for the
      first ranked player, in front of the rest; any other position adds nothing. */
  lemma ReceiptsStep(ranked: seq<Standing>, from: nat, table: seq<real>, players: map<string, SocketPlayer>)
    requires ranked != []
    ensures var rs := Receipts(ranked, from, table, players);
            var rest := Receipts(ranked[1..], from + 1, table, players);
            var amount := AmountAt(table, from + 1);
            && (amount.Some? && amount.value >= MinimumPayoutCents ==>
                  && rs == [rs[0]] + rest && rs[0].position == from + 1
                  && rs[0].playerId == ranked[0].playerId
                  && (rs[0].Paid? <==> AccountOf(players, ranked[0].playerId).Some?)
                  && (rs[0].Paid? ==> AccountOf(players, ranked[0].playerId) == Some(rs[0].userId)))
            && (!(amount.Some? && amount.value >= MinimumPayoutCents) ==> rs == rest)
  {
  }

  /** A receipt of the loop over `ranked` from position `from + 1`: it names the player ranked
      at its position, and is a credit exactly when that player has an account, credited to
      that account. */
  predicate PaysRanked(rc: Receipt, ranked: seq<Standing>, from: int, players: map<string, SocketPlayer>) {
    && 0 <= rc.position - from - 1 < |ranked|
    && rc.playerId == ranked[rc.position - from - 1].playerId
    && (rc.Paid? <==> AccountOf(players, rc.playerId).Some?)
    && (rc.Paid? ==> AccountOf(players, rc.playerId) == Some(rc.userId))
  }

  lemma PaysRankedShift(rc: Receipt, ranked: seq<Standing>, from: int, players: map<string, SocketPlayer>)
    requires ranked != [] && PaysRanked(rc, ranked[1..], from + 1, players)
    ensures PaysRanked(rc, ranked, from, players)
  {
    assert ranked[1..][rc.position - (from + 1) - 1] == ranked[rc.position - from - 1];
  }

  /** Receipts for the ranking after its first entry are receipts for the whole ranking. */
  lemma PaysRankedTail(rs: seq<Receipt>, ranked: seq<Standing>, from: int, players: map<string, SocketPlayer>)
    requires ranked != [] && forall i :: 0 <= i < |rs| ==> PaysRanked(rs[i], ranked[1..], from + 1, players)
    ensures forall i :: 0 <= i < |rs| ==> PaysRanked(rs[i], ranked, from, players)
  {
    forall i | 0 <= i < |rs| ensures PaysRanked(rs[i], ranked, from, players) {
      PaysRankedShift(rs[i], ranked, from, players);
    }
  }

  /** Every receipt pays the player ranked at its position, into that player's account. */
  lemma {:induction false} ReceiptsFollowRanking(ranked: seq<Standing>, from: nat, table: seq<real>,
                                                 players: map<string, SocketPlayer>)
    ensures var rs := Receipts(ranked, from, table, players);
            forall i :: 0 <= i < |rs| ==> PaysRanked(rs[i], ranked, from, players)
    decreases |ranked|
  {
    if ranked != [] {
      var rs := Receipts(ranked, from, table, players);
      var rest := Receipts(ranked[1..], from + 1, table, players);
      ReceiptsFollowRanking(ranked[1..], from + 1, table, players);
      ReceiptsStep(ranked, from, table, players);
      PaysRankedTail(rest, ranked, from, players);
      if rs != rest {
        assert PaysRanked(rs[0], ranked, from, players);
        forall i | 1 <= i < |rs| ensures PaysRanked(rs[i], ranked, from, players) {
          assert rs[i] == rest[i - 1];
        }
      }
    }
  }

  /** Some receipt of `rs` is for position `pos`. */
  predicate Receipted(rs: seq<Receipt>, pos: int) {
    exists i :: 0 <= i < |rs| && rs[i].position == pos
  }

  lemma ReceiptedCons(rs: seq<Receipt>, rest: seq<Receipt>, pos: int)
    requires rs != [] && rs[1..] == rest && Receipted(rest, pos)
    ensures Receipted(rs, pos)
  {
    var k :| 0 <= k < |rest| && rest[k].position == pos;
    assert rs[k + 1] == rest[k];
  }

  /** One step of the completeness induction, over the receipts alone: `rs` is `rest` with one
      receipt for position `from + 1` in front exactly when the table pays that position. */
  lemma ReceiptedStep(rs: seq<Receipt>, rest: seq<Receipt>, from: nat, n: int, table: seq<real>)
    requires (from < |table| && table[from] >= MinimumPayoutCents) ==>
               rs != [] && rs[1..] == rest && rs[0].position == from + 1
    requires !(from < |table| && table[from] >= MinimumPayoutCents) ==> rs == rest
    requires forall j :: from + 1 <= j < from + n && j < |table| && table[j] >= MinimumPayoutCents ==>
               Receipted(rest, j + 1)
    ensures forall j :: from <= j < from + n && j < |table| && table[j] >= MinimumPayoutCents ==>
              Receipted(rs, j + 1)
  {
    forall j | from <= j < from + n && j < |table| && table[j] >= MinimumPayoutCents
      ensures Receipted(rs, j + 1)
    {
      if j == from {
        assert rs[0].position == j + 1;
      } else if rs != rest {
        ReceiptedCons(rs, rest, j + 1);
      }
    }
  }

  /** Every position from `from + 1` on that has a ranked player and a table amount of at
      least the minimum gets a receipt. */
  lemma {:induction false} ReceiptsComplete(ranked: seq<Standing>, from: nat, table: seq<real>,
                                            players: map<string, SocketPlayer>)
    ensures var rs := Receipts(ranked, from, table, players);
            forall j :: from <= j < from + |ranked| && j < |table| && table[j] >= MinimumPayoutCents ==>
              Receipted(rs, j + 1)
    decreases |ranked|
  {
    if ranked != [] {
      var rs := Receipts(ranked, from, table, players);
      var rest := Receipts(ranked[1..], from + 1, table, players);
      ReceiptsComplete(ranked[1..], from + 1, table, players);
      ReceiptsStep(ranked, from, table, players);
      if rs != rest {
        assert rs[1..] == rest;
      }
      ReceiptedStep(rs, rest, from, |ranked|, table);
    }
  }

  /** The balances after applying the credit receipts in order. */
  function Credited(balances: map<Option<string>, real>, rs: seq<Receipt>): map<Option<string>, real>
    decreases |rs|
  {
    if rs == [] then balances
    else
      var before := Credited(balances, rs[..|rs| - 1]);
      match rs[|rs| - 1]
      case Paid(_, u, _, amount) => before[Some(u) := Balance(before, Some(u)) + amount]
      case NoAccount(_, _, _) => before
  }

  /** `payoutResults.totalPaid`: the sum of the credited amounts. */
  function TotalPaid(rs: seq<Receipt>): real
    decreases |rs|
  {
    if rs == [] then 0.0
    else TotalPaid(rs[..|rs| - 1]) + (if rs[|rs| - 1].Paid? then rs[|rs| - 1].amount else 0.0)
  }

  /** What the receipts credit to one account. */
  function PaidTo(rs: seq<Receipt>, u: string): real
    decreases |rs|
  {
    if rs == [] then 0.0
    else PaidTo(rs[..|rs| - 1], u) +
         (if rs[|rs| - 1].Paid? && rs[|rs| - 1].userId == u then rs[|rs| - 1].amount else 0.0)
  }

  /** Crediting the receipts raises each account by exactly what they pay it. */
  lemma {:induction false} CreditedBalance(balances: map<Option<string>, real>, rs: seq<Receipt>, u: string)
    ensures Balance(Credited(balances, rs), Some(u)) == Balance(balances, Some(u)) + PaidTo(rs, u)
    decreases |rs|
  {
    if rs != [] {
      CreditedBalance(balances, rs[..|rs| - 1], u);
    }
  }

  /** Crediting the same receipts twice pays every account twice what it is due. */
  lemma CreditedTwice(balances: map<Option<string>, real>, rs: seq<Receipt>, u: string)
    ensures Balance(Credited(Credited(balances, rs), rs), Some(u)) ==
            Balance(balances, Some(u)) + 2.0 * PaidTo(rs, u)
  {
    CreditedBalance(balances, rs, u);
    CreditedBalance(Credited(balances, rs), rs, u);
  }

  lemma {:induction false} SumNonNegative(s: seq<real>)
    requires forall i :: 0 <= i < |s| ==> s[i] >= 0.0
    ensures Sum(s) >= 0.0
  {
    if s != [] {
      SumNonNegative(s[1..]);
    }
  }

  lemma {:induction false} TotalPaidAppend(rs: seq<Receipt>, ts: seq<Receipt>)
    ensures TotalPaid(rs + ts) == TotalPaid(rs) + TotalPaid(ts)
    decreases |ts|
  {
    if ts != [] {
      var t := ts[..|ts| - 1];
      TotalPaidAppend(rs, t);
      assert (rs + ts)[..|rs + ts| - 1] == rs + t;
    } else {
      assert rs + ts == rs;
    }
  }

  /** Every table position is paid at most once, so the credits never exceed what the table
      holds from the first ranked position on. */
  lemma {:induction false} PaidWithinTable(ranked: seq<Standing>, from: nat, table: seq<real>,
                                           players: map<string, SocketPlayer>)
    requires forall i :: 0 <= i < |table| ==> table[i] >= 0.0
    ensures TotalPaid(Receipts(ranked, from, table, players)) <= if from < |table| then Sum(table[from..]) else 0.0
    decreases |ranked|
  {
    if ranked != [] {
      var rest := Receipts(ranked[1..], from + 1, table, players);
      PaidWithinTable(ranked[1..], from + 1, table, players);
      if from < |table| {
        assert table[from..][1..] == table[from + 1..];
        assert Sum(table[from..]) == table[from] + (if from + 1 < |table| then Sum(table[from + 1..]) else 0.0);
        var rs := Receipts(ranked, from, table, players);
        if rs != rest {
          ReceiptsCons(ranked, from, table, players);
          TotalPaidAppend([rs[0]], rest);
          assert [rs[0]][..0] == [];
          assert TotalPaid([rs[0]]) <= table[from];
        } else {
          assert TotalPaid(rs) == TotalPaid(rest);
        }
      } else {
        assert Receipts(ranked, from, table, players) == rest;
      }
    } else if from < |table| {
      SumNonNegative(table[from..]);
    }
  }

  /** A position that pays puts exactly one receipt, for that position, in front. */
  lemma ReceiptsCons(ranked: seq<Standing>, from: nat, table: seq<real>, players: map<string, SocketPlayer>)
    requires ranked != [] && Receipts(ranked, from, table, players) != Receipts(ranked[1..], from + 1, table, players)
    ensures var rs := Receipts(ranked, from, table, players);
            && rs == [rs[0]] + Receipts(ranked[1..], from + 1, table, players)
            && from < |table| && rs[0].amount == table[from]
  {
  }

  /** Money the payout loop hands out never exceeds the player pot: at most 94% of the pool
      leaves it, whatever the ranking and whoever has an account. */
  lemma PaidWithinPlayerPot(prizePool: int, playerCount: int, entryFee: int, ranked: seq<Standing>,
                            players: map<string, SocketPlayer>)
    requires prizePool >= 0
    ensures var t := TournamentPayouts(prizePool, playerCount, entryFee);
            TotalPaid(Receipts(ranked, 0, t.payouts, players)) <= t.playerPot
  {
    var t := TournamentPayouts(prizePool, playerCount, entryFee);
    var s := Shares(playerCount);
    assert forall i :: 0 <= i < |s| ==> s[i] >= 0.0;
    assert forall i :: 0 <= i < |t.payouts| ==> t.payouts[i] >= 0.0;
    PaidWithinTable(ranked, 0, t.payouts, players);
    if 2 <= playerCount <= 6 {
      TournamentSumsToPlayerPot(prizePool, playerCount, entryFee);
      assert t.payouts[0..] == t.payouts;
    }
  }

  /** A stored room: keyed by its own id, well formed, each member listed once. */
  predicate Kept(k: string, r: Room) {
    r.id == k && WellFormed(r) && NoDuplicates(r.players)
  }

  /** The rooms invariant of this server: every room kept, `order` listing each room id once. */
  ghost predicate Tracked(rooms: map<string, Room>, order: seq<string>) {
    && NoDuplicates(order)
    && (forall k :: k in rooms <==> k in order)
    && (forall k :: k in rooms ==> Kept(k, rooms[k]))
  }

  lemma TrackedUpdate(rooms: map<string, Room>, order: seq<string>, k: string, r: Room)
    requires Tracked(rooms, order) && k in rooms && SameShape(rooms[k], r)
    ensures Tracked(rooms[k := r], order)
  {
    SameShapeKeeps(rooms[k], r);
  }

  lemma TrackedCreate(rooms: map<string, Room>, order: seq<string>, r: Room)
    requires Tracked(rooms, order) && Kept(r.id, r)
    ensures Tracked(rooms[r.id := r], if r.id in rooms then order else order + [r.id])
  {
  }

  /** A join through an open room by a non-member keeps the invariant and lists the newcomer once. */
  lemma TrackedJoin(rooms: map<string, Room>, order: seq<string>, k: string, id: string, name: string)
    requires Tracked(rooms, order) && k in rooms && Open(rooms[k]) && id !in rooms[k].players
    ensures Tracked(rooms[k := Joined(rooms[k], id, name)], order)
    ensures multiset(Joined(rooms[k], id, name).players)[id] == 1
  {
    var r := rooms[k];
    JoinKeepsShape(r, id, name);
    assert multiset(r.players)[id] == 0;
    assert Kept(k, Joined(r, id, name));
  }

  /** Leaving keeps a stored room stored. */
  lemma KeptLeave(k: string, r: Room, id: string, refund: bool)
    requires Kept(k, r) && Without(r, id, refund).Some?
    ensures Kept(k, Without(r, id, refund).value)
  {
    LeaveKeepsShape(r, id, refund);
    LeaveEffect(r, id, refund);
    var i := IndexOf(r.players, id);
    if i > -1 {
      RemoveAtNoDuplicates(r.players, i);
    }
  }

  lemma TrackedLeave(rooms: map<string, Room>, order: seq<string>, k: string, id: string, refund: bool)
    requires Tracked(rooms, order) && k in rooms && Without(rooms[k], id, refund).Some?
    ensures Tracked(rooms[k := Without(rooms[k], id, refund).value], order)
  {
    KeptLeave(k, rooms[k], id, refund);
  }

  /** Deleting a stored room and its entry in `order` keeps the invariant. */
  lemma TrackedDelete(rooms: map<string, Room>, order: seq<string>, k: string)
    requires Tracked(rooms, order) && k in rooms
    ensures 0 <= IndexOf(order, k) < |order|
    ensures Tracked(rooms - {k}, RemoveAt(order, IndexOf(order, k)))
    ensures k !in RemoveAt(order, IndexOf(order, k))
  {
    RemoveAtNoDuplicates(order, IndexOf(order, k));
  }

  /** Leaving without a refund never changes the pool. */
  lemma LeaveForfeits(r: Room, playerId: string)
    requires |r.players| == |r.playerNames| && Without(r, playerId, false).Some?
    ensures Without(r, playerId, false).value.prizePool == r.prizePool
  {
    var i := IndexOf(r.players, playerId);
    if i > -1 {
      var r1 := r.(players := RemoveAt(r.players, i), playerNames := RemoveAt(r.playerNames, i),
                   scores := r.scores - {playerId}, answers := r.answers - {playerId});
      assert Without(r, playerId, false).value.prizePool == r1.prizePool;
    }
  }

  /** Fee accounting: a player who joins and then disconnects leaves the fee in the pool. */
  lemma JoinThenDisconnectForfeits(r: Room, playerId: string, playerName: string)
    requires WellFormed(r) && Open(r) && playerId != r.hostId && playerId !in r.players
    ensures WellFormed(Joined(r, playerId, playerName))
    ensures Without(Joined(r, playerId, playerName), playerId, false).Some?
    ensures Without(Joined(r, playerId, playerName), playerId, false).value.prizePool ==
            r.prizePool + r.entryFee * 100
    ensures Without(Joined(r, playerId, playerName), playerId, false).value.players == r.players
  {
    var j := Joined(r, playerId, playerName);
    JoinKeepsShape(r, playerId, playerName);
    LeaveKeepsShape(j, playerId, false);
    LeaveEffect(j, playerId, false);
    IndexOfAt(j.players, playerId, |r.players|);
    assert j.players[..|r.players|] == r.players;
    assert RemoveAt(j.players, |r.players|) == r.players;
  }

  /** `playerRankings` after the sort: the members with a score entry, enumerated in `keys`
      (the order of `Object.keys(room.scores)`), by non-increasing score; each of them is
      ranked exactly once. */
  function Ranked(r: Room, keys: seq<string>): (ranked: seq<Standing>)
    requires |r.players| == |r.playerNames| && ScoreKeys(r, keys)
    ensures NonIncreasing(ranked)
    ensures NoDuplicates(Ids(ranked))
    ensures forall id :: id in Ids(ranked) <==> id in r.scores && id in r.players
  {
    var s := ScoredStandings(r, keys);
    SortKeepsPlayers(s);
    NoDuplicatesPermuted(Ids(s), Ids(SortByScore(s)));
    assert forall id :: id in Ids(SortByScore(s)) <==> id in multiset(Ids(s));
    SortByScore(s)
  }

  /** Each ranked entry is the member's own standing: its name and its `room.scores` entry. */
  lemma RankedStandings(r: Room, keys: seq<string>)
    requires |r.players| == |r.playerNames| && ScoreKeys(r, keys)
    ensures OwnStandings(r, Ranked(r, keys))
  {
    var s := ScoredStandings(r, keys);
    var ranked := Ranked(r, keys);
    assert ranked == SortByScore(s);
    ScoredStandingsOf(r, keys);
    SortKeepsOwn(r, s);
  }

  /** The first ranked entry, the winner, has the top `room.scores` entry of every member
      with a score. */
  lemma RankedWinnerIsTop(r: Room, keys: seq<string>)
    requires |r.players| == |r.playerNames| && ScoreKeys(r, keys)
    ensures var ranked := Ranked(r, keys);
            ranked != [] ==>
              forall id :: id in r.scores && id in r.players ==> ScoreOf(r.scores, id) <= ranked[0].score
  {
    var ranked := Ranked(r, keys);
    if ranked != [] {
      RankedStandings(r, keys);
      IdsAt(ranked);
      forall id | id in r.scores && id in r.players
        ensures ScoreOf(r.scores, id) <= ranked[0].score
      {
        var k :| 0 <= k < |ranked| && Ids(ranked)[k] == id;
        assert ranked[k] == StandingOf(r, id);
      }
    }
  }

  /** The payout table of a finished room: its pool and head count, in cents. */
  function Table(r: Room): Tournament {
    TournamentPayouts(r.prizePool, |r.players|, r.entryFee)
  }

  /** The receipts of the payout loop for a finished room. */
  function Payments(r: Room, keys: seq<string>, players: map<string, SocketPlayer>): seq<Receipt>
    requires |r.players| == |r.playerNames| && ScoreKeys(r, keys)
  {
    Receipts(Ranked(r, keys), 0, Table(r).payouts, players)
  }

  /** What `endGame` emits: the ranking, the table, the receipts and the total paid, with the
      top-ranked player as winner; with nobody ranked, reading the winner's name throws. */
  function Settlement(r: Room, keys: seq<string>, players: map<string, SocketPlayer>): (s: Result<GameEnd>)
    requires |r.players| == |r.playerNames| && ScoreKeys(r, keys)
    ensures s.Threw? <==> Ranked(r, keys) == []
    ensures s.Threw? ==> s.error.TypeError?
    ensures s.Ok? ==> && s.value.rankings == Ranked(r, keys) && s.value.winner == s.value.rankings[0].playerName
                      && s.value.receipts == Payments(r, keys, players)
                      && s.value.totalPaid == TotalPaid(s.value.receipts) && s.value.table == Table(r)
  {
    var ranked := Ranked(r, keys);
    if ranked == [] then Threw(TypeError("Cannot read properties of undefined (reading 'playerName')"))
    else
      var receipts := Payments(r, keys, players);
      Ok(GameEnd(ranked[0].playerName, ranked, Table(r), receipts, TotalPaid(receipts)))
  }

  /** The settlement reads only the members, their names, the scores, the pool and the fee,
      so advancing the round or finishing the room does not change it. */
  lemma SettlementReadsStandings(r: Room, r': Room, keys: seq<string>, players: map<string, SocketPlayer>)
    requires |r.players| == |r.playerNames| && ScoreKeys(r, keys)
    requires r'.players == r.players && r'.playerNames == r.playerNames && r'.scores == r.scores
    requires r'.prizePool == r.prizePool && r'.entryFee == r.entryFee
    ensures ScoreKeys(r', keys)
    ensures Payments(r', keys, players) == Payments(r, keys, players)
    ensures Settlement(r', keys, players) == Settlement(r, keys, players)
  {
    ScoredStandingsReadsScores(r, r', keys);
  }

  /** `player && player.roomId`: the room a socket recorded, when the socket is known and
      the recorded id is truthy. */
  function RoomOf(players: map<string, SocketPlayer>, socketId: string): (rid: Option<string>)
    ensures rid.Some? <==> socketId in players && players[socketId].roomId.Some? && players[socketId].roomId.value != ""
    ensures rid.Some? ==> rid == players[socketId].roomId
  {
    if socketId in players && players[socketId].roomId.Some? && players[socketId].roomId.value != ""
    then players[socketId].roomId else None
  }

  class Server {
    var rooms: map<string, Room>
    var roomOrder: seq<string>
    var players: map<string, SocketPlayer>
    var balances: map<Option<string>, real>
    const puzzles: seq<Puzzle>

    ghost predicate Valid()
      reads this
    {
      Tracked(rooms, roomOrder)
    }

    /** Start-up: empty maps and the puzzles read from the file or, when reading failed
        (`None`), the built-in list. */
    constructor (file: Option<seq<RawPuzzle>>)
      ensures Valid()
      ensures rooms == map[] && roomOrder == [] && players == map[] && balances == map[]
      ensures puzzles == Catalogue(file, FallbackServer())
    {
      rooms := map[];
      roomOrder := [];
      players := map[];
      balances := map[];
      puzzles := Catalogue(file, FallbackServer());
    }

    // ---- the balance ledger ----

    /** `add-balance`: the account gains exactly `amount`; a missing account counts as 0. */
    method AddBalance(userId: Option<string>, amount: real) returns (newBalance: real)
      modifies this
      ensures newBalance == old(Balance(balances, userId)) + amount
      ensures balances == old(balances)[userId := newBalance]
      ensures rooms == old(rooms) && roomOrder == old(roomOrder) && players == old(players)
    {
      newBalance := Balance(balances, userId) + amount;
      balances := balances[userId := newBalance];
    }

    /** `deduct-balance`: refused with no change when the balance is below `amount`;
        otherwise the account loses exactly `amount`. */
    method DeductBalance(userId: Option<string>, amount: real) returns (success: bool)
      modifies this
      ensures success <==> old(Balance(balances, userId)) >= amount
      ensures !success ==> unchanged(this)
      ensures success ==> balances == old(balances)[userId := old(Balance(balances, userId)) - amount]
      ensures rooms == old(rooms) && roomOrder == old(roomOrder) && players == old(players)
    {
      var current := Balance(balances, userId);
      if current < amount {
        return false;
      }
      balances := balances[userId := current - amount];
      success := true;
    }

    // ---- connections ----

    /** A new connection registers the socket with a generated name, no room and no account. */
    method Connect(socketId: string, name: string)
      requires Valid()
      modifies this
      ensures Valid()
      ensures players == old(players)[socketId := SocketPlayer(socketId, name, None, 0, None)]
      ensures rooms == old(rooms) && roomOrder == old(roomOrder) && balances == old(balances)
    {
      players := players[socketId := SocketPlayer(socketId, name, None, 0, None)];
    }

    /** `set_user_id`: a truthy id is attached to a known socket; anything else changes nothing. */
    method SetUserId(socketId: string, userId: Option<string>)
      requires Valid()
      modifies this
      ensures Valid()
      ensures userId.Some? && userId.value != "" && socketId in old(players) ==>
                players == old(players)[socketId := old(players)[socketId].(userId := userId)]
      ensures !(userId.Some? && userId.value != "" && socketId in old(players)) ==> players == old(players)
      ensures rooms == old(rooms) && roomOrder == old(roomOrder) && balances == old(balances)
    {
      if userId.Some? && userId.value != "" && socketId in players {
        players := players[socketId := players[socketId].(userId := userId)];
      }
    }

    // ---- rooms ----

    /** `create_room`: an unknown socket is refused; the fee defaults to 10 (for a missing or
        zero fee) and the name to 'Game Room'. A creator whose balance is below the fee in
        cents is refused with nothing changed; otherwise exactly the fee is deducted and a
        waiting room opens whose pool equals the amount deducted. */
    method CreateRoom(socketId: string, roomId: string, roomName: Option<string>, entryFee: Option<int>)
      returns (outcome: Outcome<Room>)
      requires Valid()
      modifies this
      ensures Valid()
      ensures outcome.Refused? ==> unchanged(this)
      ensures socketId !in old(players) ==> outcome == Refused(PlayerNotFound)
      ensures socketId in old(players) ==>
                var p := old(players)[socketId];
                var fee := if entryFee.None? || entryFee.value == 0 then 10 else entryFee.value;
                var before := old(Balance(balances, p.userId));
                && (before < (fee * 100) as real ==> outcome == Refused(InsufficientBalance))
                && (before >= (fee * 100) as real ==>
                      && outcome.Done?
                      && outcome.value == NewRoom(roomId, if roomName.None? || roomName.value == "" then "Game Room"
                                                          else roomName.value, fee, socketId, p.name)
                      && balances == old(balances)[p.userId := before - (fee * 100) as real]
                      && outcome.value.prizePool as real == before - balances[p.userId]
                      && rooms == old(rooms)[roomId := outcome.value]
                      && roomOrder == (if roomId in old(rooms) then old(roomOrder) else old(roomOrder) + [roomId])
                      && players == old(players)[socketId := p.(roomId := Some(roomId))])
    {
      if socketId !in players {
        return Refused(PlayerNotFound);
      }
      var p := players[socketId];
      var fee := if entryFee.None? || entryFee.value == 0 then 10 else entryFee.value;
      var cents := fee * 100;
      var current := Balance(balances, p.userId);
      if current < cents as real {
        return Refused(InsufficientBalance);
      }
      balances := balances[p.userId := current - cents as real];
      var name := if roomName.None? || roomName.value == "" then "Game Room" else roomName.value;
      var room := NewRoom(roomId, name, fee, socketId, p.name);
      TrackedCreate(rooms, roomOrder, room);
      if roomId !in rooms {
        roomOrder := roomOrder + [roomId];
      }
      rooms := rooms[roomId := room];
      players := players[socketId := p.(roomId := Some(roomId))];
      outcome := Done(room);
    }

    /** `join_room`: refused, in this order, when the room is missing, not waiting, full,
        already has the player, or the player's balance is below the fee in cents; a refusal
        changes nothing. A join moves exactly the fee from the account to the pool and
        appends the player once, with a zero score. */
    method JoinRoom(socketId: string, roomId: string) returns (outcome: Outcome<Room>)
      requires Valid() && socketId in players
      modifies this
      ensures Valid()
      ensures outcome.Refused? ==> unchanged(this)
      ensures roomId !in old(rooms) ==> outcome == Refused(RoomNotFound)
      ensures roomId in old(rooms) && old(rooms)[roomId].status != Waiting ==>
                outcome == Refused(NotAcceptingPlayers)
      ensures (roomId in old(rooms) && old(rooms)[roomId].status == Waiting
               && |old(rooms)[roomId].players| >= old(rooms)[roomId].maxPlayers) ==> outcome == Refused(RoomFull)
      ensures roomId in old(rooms) && Open(old(rooms)[roomId]) && socketId in old(rooms)[roomId].players ==>
                outcome == Refused(AlreadyInRoom)
      ensures roomId in old(rooms) && Open(old(rooms)[roomId]) && socketId !in old(rooms)[roomId].players ==>
                var r := old(rooms)[roomId];
                var p := old(players)[socketId];
                var before := old(Balance(balances, p.userId));
                var cents := (r.entryFee * 100) as real;
                && (before < cents ==> outcome == Refused(InsufficientBalance))
                && (before >= cents ==>
                      && outcome == Done(Joined(r, socketId, p.name))
                      && balances == old(balances)[p.userId := before - cents]
                      && outcome.value.prizePool as real == r.prizePool as real + (before - balances[p.userId])
                      && multiset(outcome.value.players)[socketId] == 1
                      && rooms == old(rooms)[roomId := outcome.value]
                      && players == old(players)[socketId := p.(roomId := Some(roomId))])
    {
      if roomId !in rooms {
        return Refused(RoomNotFound);
      }
      var r := rooms[roomId];
      if r.status != Waiting {
        return Refused(NotAcceptingPlayers);
      }
      if |r.players| >= r.maxPlayers {
        return Refused(RoomFull);
      }
      if socketId in r.players {
        return Refused(AlreadyInRoom);
      }
      var p := players[socketId];
      var cents := r.entryFee * 100;
      var current := Balance(balances, p.userId);
      if current < cents as real {
        return Refused(InsufficientBalance);
      }
      balances := balances[p.userId := current - cents as real];
      var r' := Joined(r, socketId, p.name);
      TrackedJoin(rooms, roomOrder, roomId, socketId, p.name);
      rooms := rooms[roomId := r'];
      players := players[socketId := p.(roomId := Some(roomId))];
      outcome := Done(r');
    }

    /** `startRound`: the round's answers are cleared and its puzzle drawn and installed. When
        the round's tier is empty the draw is `undefined`, so logging the question throws
        after those changes, and the round timer is never set. */
    method StartRound(roomId: string, choice: nat) returns (question: Result<Puzzle>)
      requires Valid() && roomId in rooms
      modifies this
      ensures Valid()
      ensures var r := old(rooms)[roomId];
              var drawn := Draw(puzzles, Some(r.currentRound), choice);
              && rooms == old(rooms)[roomId := WithFreshRound(r, drawn)]
              && (drawn.Some? ==> question == Ok(drawn.value))
              && (drawn.None? ==> question.Threw? && question.error.TypeError?)
              && (question.Threw? <==>
                    forall q :: q in puzzles ==> q.difficulty != DifficultyForRound(Some(r.currentRound)))
      ensures roomOrder == old(roomOrder) && players == old(players) && balances == old(balances)
    {
      var r := rooms[roomId];
      var drawn := Draw(puzzles, Some(r.currentRound), choice);
      TrackedUpdate(rooms, roomOrder, roomId, WithFreshRound(r, drawn));
      rooms := rooms[roomId := WithFreshRound(r, drawn)];
      if drawn.None? {
        return Threw(TypeError("Cannot read properties of undefined (reading 'symbols')"));
      }
      question := Ok(drawn.value);
    }

    /** `start_game`: only the host of an existing room may start, and only with at least
        two members; the status is not checked. The game then plays from round 1. */
    method StartGame(socketId: string, roomId: string, choice: nat)
      returns (outcome: Outcome<Result<Puzzle>>)
      requires Valid()
      modifies this
      ensures Valid()
      ensures outcome.Refused? ==> unchanged(this)
      ensures roomId !in old(rooms) || old(rooms)[roomId].hostId != socketId ==> outcome == Refused(NotHost)
      ensures roomId in old(rooms) && old(rooms)[roomId].hostId == socketId ==>
                var r := old(rooms)[roomId];
                && (|r.players| < 2 ==> outcome == Refused(TooFewPlayers))
                && (|r.players| >= 2 ==>
                      var drawn := Draw(puzzles, Some(1), choice);
                      && rooms == old(rooms)[roomId := WithFreshRound(Started(r), drawn)]
                      && rooms[roomId].status == Playing && rooms[roomId].currentRound == 1
                      && outcome.Done? && (drawn.Some? <==> outcome.value.Ok?))
      ensures roomOrder == old(roomOrder) && players == old(players) && balances == old(balances)
    {
      if roomId !in rooms || rooms[roomId].hostId != socketId {
        return Refused(NotHost);
      }
      if |rooms[roomId].players| < 2 {
        return Refused(TooFewPlayers);
      }
      var r := Started(rooms[roomId]);
      TrackedUpdate(rooms, roomOrder, roomId, r);
      rooms := rooms[roomId := r];
      var q := StartRound(roomId, choice);
      outcome := Done(q);
    }

    /** `submit_answer`: refused unless the room is playing and has a puzzle. Otherwise the
        attempt is recorded and, on the first correct attempt, scored; `isFirstCorrect` means
        correct at the first attempt. */
    method SubmitAnswer(socketId: string, roomId: string, answer: string) returns (outcome: Outcome<Verdict>)
      requires Valid() && socketId in players
      modifies this
      ensures Valid()
      ensures outcome.Refused? ==> unchanged(this)
      ensures roomId !in old(rooms) || old(rooms)[roomId].status != Playing ==> outcome == Refused(GameNotActive)
      ensures roomId in old(rooms) && old(rooms)[roomId].status == Playing ==>
                var r := old(rooms)[roomId];
                && (r.currentPuzzle.None? ==> outcome == Refused(NoActivePuzzle))
                && (r.currentPuzzle.Some? ==>
                      var p := r.currentPuzzle.value;
                      var c := IsCorrect(p, answer);
                      var n := |PriorAttempts(r, socketId)| + 1;
                      && rooms == old(rooms)[roomId := Submitted(r, socketId, old(players)[socketId].name, answer, c, p.points)]
                      && outcome == Done(Verdict(c, if c then p.points else 0, n, c && n == 1)))
      ensures roomOrder == old(roomOrder) && players == old(players) && balances == old(balances)
    {
      if roomId !in rooms || rooms[roomId].status != Playing {
        return Refused(GameNotActive);
      }
      var r := rooms[roomId];
      if r.currentPuzzle.None? {
        return Refused(NoActivePuzzle);
      }
      var p := r.currentPuzzle.value;
      var c := IsCorrect(p, answer);
      var name := players[socketId].name;
      var r' := Submitted(r, socketId, name, answer, c, p.points);
      SubmitEffect(r, socketId, name, answer, c, p.points);
      TrackedUpdate(rooms, roomOrder, roomId, r');
      rooms := rooms[roomId := r'];
      var n := |r'.answers[socketId].attempts|;
      outcome := Done(Verdict(c, if c then p.points else 0, n, c && n == 1));
    }

    /** The guard shared by the `time_up` handler and the round timer: an `endRound` is
        scheduled only for an existing room that is playing. The scheduled call itself checks
        nothing, so two triggers in the same round advance it twice. */
    method OnTimeUp(roomId: string) returns (scheduled: bool)
      ensures scheduled <==> roomId in rooms && rooms[roomId].status == Playing
    {
      scheduled := roomId in rooms && rooms[roomId].status == Playing;
    }

    /** `endGame` as written: the room is marked finished, then building the payout table
        reads the undeclared `totalPot` and throws, so nobody is paid. */
    method EndGameAsWritten(roomId: string) returns (result: Result<GameEnd>)
      requires Valid() && roomId in rooms
      modifies this
      ensures Valid()
      ensures rooms == old(rooms)[roomId := old(rooms)[roomId].(status := Finished)]
      ensures result == Threw(ReferenceError("totalPot"))
      ensures balances == old(balances)
      ensures roomOrder == old(roomOrder) && players == old(players)
    {
      var r := rooms[roomId];
      TrackedUpdate(rooms, roomOrder, roomId, r.(status := Finished));
      rooms := rooms[roomId := r.(status := Finished)];
      var table := TournamentPayoutsAsWritten(r.prizePool, |r.players|);
      result := Threw(table.error);
    }

    /** The payout loop of `endGame` over the ranked players, positions 1, 2, ...: it
        computes the receipts, the credited balances and the total paid out of the current
        players and balances, changing nothing. */
    method PayOut(ranked: seq<Standing>, table: seq<real>)
      returns (receipts: seq<Receipt>, credits: map<Option<string>, real>, totalPaid: real)
      ensures receipts == Receipts(ranked, 0, table, players)
      ensures credits == Credited(balances, receipts)
      ensures totalPaid == TotalPaid(receipts)
    {
      receipts := [];
      credits := balances;
      totalPaid := 0.0;
      var i := 0;
      while i < |ranked|
        invariant 0 <= i <= |ranked|
        invariant receipts + Receipts(ranked[i..], i, table, players) == Receipts(ranked, 0, table, players)
        invariant credits == Credited(balances, receipts)
        invariant totalPaid == TotalPaid(receipts)
      {
        var position := i + 1;
        var amount := AmountAt(table, position);
        ghost var rest := Receipts(ranked[i + 1..], i + 1, table, players);
        assert ranked[i..][1..] == ranked[i + 1..];
        if amount.Some? && amount.value >= MinimumPayoutCents {
          var account := AccountOf(players, ranked[i].playerId);
          var receipt;
          if account.Some? {
            receipt := Paid(ranked[i].playerId, account.value, position, amount.value);
            credits := credits[account := Balance(credits, account) + amount.value];
            totalPaid := totalPaid + amount.value;
          } else {
            receipt := NoAccount(ranked[i].playerId, position, amount.value);
          }
          assert Receipts(ranked[i..], i, table, players) == [receipt] + rest;
          assert (receipts + [receipt])[..|receipts|] == receipts;
          AppendAssociative(receipts, [receipt], rest);
          receipts := receipts + [receipt];
        } else {
          assert Receipts(ranked[i..], i, table, players) == rest;
        }
        i := i + 1;
      }
      assert ranked[|ranked|..] == [];
    }

    /** `endGame` with the payout table built, run whatever the room's status: the players
        that have a score entry (enumerated in `keys`, the order of `Object.keys(room.scores)`)
        are ranked by non-increasing score and take positions 1, 2, ...; each position whose
        table amount is at least the minimum is credited to the player's account, or recorded
        as an error when the player has none. With nobody ranked, reading the winner throws
        after the payouts. */
    method PayWinners(roomId: string, keys: seq<string>) returns (result: Result<GameEnd>)
      requires Valid() && roomId in rooms && ScoreKeys(rooms[roomId], keys)
      modifies this
      ensures Valid()
      ensures rooms == old(rooms)[roomId := old(rooms)[roomId].(status := Finished)]
      ensures balances == Credited(old(balances), Payments(old(rooms)[roomId], keys, old(players)))
      ensures result == Settlement(old(rooms)[roomId], keys, old(players))
      ensures roomOrder == old(roomOrder) && players == old(players)
    {
      var r := rooms[roomId];
      TrackedUpdate(rooms, roomOrder, roomId, r.(status := Finished));
      rooms := rooms[roomId := r.(status := Finished)];
      var ranked := Ranked(r, keys);
      var table := Table(r);
      var receipts, credits, totalPaid := PayOut(ranked, table.payouts);
      balances := credits;
      if ranked == [] {
        return Threw(TypeError("Cannot read properties of undefined (reading 'playerName')"));
      }
      result := Ok(GameEnd(ranked[0].playerName, ranked, table, receipts, totalPaid));
    }

    /** `endGame` as intended: a room that is already finished is left alone and nobody is
        paid again (`None`); otherwise the winners are paid as `PayWinners` pays them. */
    method EndGame(roomId: string, keys: seq<string>) returns (result: Option<Result<GameEnd>>)
      requires Valid() && roomId in rooms && ScoreKeys(rooms[roomId], keys)
      modifies this
      ensures Valid()
      ensures old(rooms)[roomId].status == Finished ==> result == None && unchanged(this)
      ensures old(rooms)[roomId].status != Finished ==>
                && rooms == old(rooms)[roomId := old(rooms)[roomId].(status := Finished)]
                && balances == Credited(old(balances), Payments(old(rooms)[roomId], keys, old(players)))
                && result == Some(Settlement(old(rooms)[roomId], keys, old(players)))
                && roomOrder == old(roomOrder) && players == old(players)
    {
      if rooms[roomId].status == Finished {
        return None;
      }
      var settled := PayWinners(roomId, keys);
      result := Some(settled);
    }

    /** `endRound`, called by a timer on a room that still exists: no status check; the
        round counter goes up by exactly one, and the game ends exactly when the new round
        passes the last one; otherwise the next round's start is scheduled. */
    method EndRound(roomId: string, keys: seq<string>) returns (step: RoundStep)
      requires Valid()
      requires roomId in rooms ==> ScoreKeys(rooms[roomId], keys)
      modifies this
      ensures Valid()
      ensures roomId !in old(rooms) ==> step == NoSuchRoom && unchanged(this)
      ensures roomId in old(rooms) ==>
                var r := RoundAdvanced(old(rooms)[roomId]);
                && roomOrder == old(roomOrder) && players == old(players)
                && (step.GameOver? <==> r.currentRound > TotalRounds)
                && (r.currentRound <= TotalRounds ==>
                      rooms == old(rooms)[roomId := r] && balances == old(balances) && step == NextRoundScheduled)
                && (r.currentRound > TotalRounds && r.status == Finished ==>
                      rooms == old(rooms)[roomId := r] && balances == old(balances) && step == GameOver(None))
                && (r.currentRound > TotalRounds && r.status != Finished ==>
                      && rooms == old(rooms)[roomId := r.(status := Finished)]
                      && balances == Credited(old(balances), Payments(r, keys, old(players)))
                      && step == GameOver(Some(Settlement(r, keys, old(players)))))
    {
      if roomId !in rooms {
        return NoSuchRoom;
      }
      ghost var before := rooms;
      var r := RoundAdvanced(rooms[roomId]);
      assert ScoreKeys(r, keys);
      TrackedUpdate(rooms, roomOrder, roomId, r);
      rooms := rooms[roomId := r];
      if r.currentRound > r.totalRounds {
        var result := EndGame(roomId, keys);
        if r.status != Finished {
          assert rooms == before[roomId := r][roomId := r.(status := Finished)];
          UpdateTwice(before, roomId, r, r.(status := Finished));
        }
        step := GameOver(result);
      } else {
        step := NextRoundScheduled;
      }
    }

    /** `endRound` as the code runs it, with the payout table built: nothing stops a call on
        a room whose game is already over from paying its winners again. */
    method EndRoundAsWritten(roomId: string, keys: seq<string>) returns (step: RoundStep)
      requires Valid()
      requires roomId in rooms ==> ScoreKeys(rooms[roomId], keys)
      modifies this
      ensures Valid()
      ensures roomId !in old(rooms) ==> step == NoSuchRoom && unchanged(this)
      ensures roomId in old(rooms) ==>
                var r := RoundAdvanced(old(rooms)[roomId]);
                && roomOrder == old(roomOrder) && players == old(players)
                && (r.currentRound <= TotalRounds ==>
                      rooms == old(rooms)[roomId := r] && balances == old(balances) && step == NextRoundScheduled)
                && (r.currentRound > TotalRounds ==>
                      && rooms == old(rooms)[roomId := r.(status := Finished)]
                      && balances == Credited(old(balances), Payments(r, keys, old(players)))
                      && step == GameOver(Some(Settlement(r, keys, old(players)))))
    {
      if roomId !in rooms {
        return NoSuchRoom;
      }
      ghost var before := rooms;
      var r := RoundAdvanced(rooms[roomId]);
      assert ScoreKeys(r, keys);
      TrackedUpdate(rooms, roomOrder, roomId, r);
      rooms := rooms[roomId := r];
      if r.currentRound > r.totalRounds {
        var result := PayWinners(roomId, keys);
        assert rooms == before[roomId := r][roomId := r.(status := Finished)];
        UpdateTwice(before, roomId, r, r.(status := Finished));
        step := GameOver(Some(result));
      } else {
        step := NextRoundScheduled;
      }
    }

    /** The last round ended twice, as the code allows: the round timer and a client's
        `time_up` each schedule an `endRound` while the room is still playing. Both calls
        settle the game, so the same receipts are credited twice. */
    method LastRoundEndedTwiceAsWritten(roomId: string, keys: seq<string>) returns (first: RoundStep, second: RoundStep)
      requires Valid() && roomId in rooms && ScoreKeys(rooms[roomId], keys)
      requires rooms[roomId].currentRound == TotalRounds
      modifies this
      ensures Valid()
      ensures first.GameOver? && second.GameOver? && first == second
      ensures balances == Credited(Credited(old(balances), Payments(old(rooms)[roomId], keys, old(players))),
                                   Payments(old(rooms)[roomId], keys, old(players)))
      ensures roomOrder == old(roomOrder) && players == old(players)
    {
      ghost var r0 := rooms[roomId];
      SettlementReadsStandings(r0, RoundAdvanced(r0), keys, players);
      first := EndRoundAsWritten(roomId, keys);
      SettlementReadsStandings(r0, RoundAdvanced(rooms[roomId]), keys, players);
      second := EndRoundAsWritten(roomId, keys);
    }

    /** The last round ended twice with the intended `endGame`: the second call finds the
        game over, so the balances are credited once. */
    method LastRoundEndedTwice(roomId: string, keys: seq<string>) returns (first: RoundStep, second: RoundStep)
      requires Valid() && roomId in rooms && ScoreKeys(rooms[roomId], keys)
      requires rooms[roomId].currentRound == TotalRounds && rooms[roomId].status == Playing
      modifies this
      ensures Valid()
      ensures first == GameOver(Some(Settlement(old(rooms)[roomId], keys, old(players))))
      ensures second == GameOver(None)
      ensures balances == Credited(old(balances), Payments(old(rooms)[roomId], keys, old(players)))
      ensures roomOrder == old(roomOrder) && players == old(players)
    {
      ghost var r0 := rooms[roomId];
      SettlementReadsStandings(r0, RoundAdvanced(r0), keys, players);
      first := EndRound(roomId, keys);
      SettlementReadsStandings(r0, RoundAdvanced(rooms[roomId]), keys, players);
      second := EndRound(roomId, keys);
    }

    /** `get_rooms`: the waiting, not-full rooms in creation order. */
    method GetRooms() returns (list: seq<RoomSummary>)
      requires Valid()
      ensures list == OpenRooms(rooms, roomOrder)
      ensures forall i :: 0 <= i < |roomOrder| && Open(rooms[roomOrder[i]]) ==>
                Summary(rooms[roomOrder[i]]) in list
    {
      list := OpenRooms(rooms, roomOrder);
    }

    /** `disconnect`: the player leaves the recorded room without a refund — the pool keeps
        the fee. When the last member, the host, leaves, the room is deleted and the handler
        returns early, so the player record survives; otherwise the record is deleted. */
    method Disconnect(socketId: string)
      requires Valid()
      modifies this
      ensures Valid()
      ensures balances == old(balances)
      ensures RoomOf(old(players), socketId).None? || RoomOf(old(players), socketId).value !in old(rooms) ==>
                rooms == old(rooms) && roomOrder == old(roomOrder) && players == old(players) - {socketId}
      ensures RoomOf(old(players), socketId).Some? && RoomOf(old(players), socketId).value in old(rooms) ==>
                var rid := RoomOf(old(players), socketId).value;
                Without(old(rooms)[rid], socketId, false).None? ==>
                  && rooms == old(rooms) - {rid} && players == old(players)
                  && roomOrder == RemoveAt(old(roomOrder), IndexOf(old(roomOrder), rid))
      ensures RoomOf(old(players), socketId).Some? && RoomOf(old(players), socketId).value in old(rooms) ==>
                var rid := RoomOf(old(players), socketId).value;
                Without(old(rooms)[rid], socketId, false).Some? ==>
                  && rooms == old(rooms)[rid := Without(old(rooms)[rid], socketId, false).value]
                  && rooms[rid].prizePool == old(rooms)[rid].prizePool
                  && roomOrder == old(roomOrder) && players == old(players) - {socketId}
    {
      var rid := RoomOf(players, socketId);
      if rid.Some? && rid.value in rooms {
        var deleted := LeaveRoom(rid.value, socketId);
        if deleted {
          return;
        }
      }
      players := players - {socketId};
    }

    /** The room part of `disconnect`: the member is spliced out and keeps no refund; a
        leaving host hands over the room or, as its last member, deletes it. */
    method LeaveRoom(rid: string, socketId: string) returns (deleted: bool)
      requires Valid() && rid in rooms
      modifies this
      ensures Valid()
      ensures deleted <==> Without(old(rooms)[rid], socketId, false).None?
      ensures deleted ==> rooms == old(rooms) - {rid} && roomOrder == RemoveAt(old(roomOrder), IndexOf(old(roomOrder), rid))
      ensures !deleted ==> && rooms == old(rooms)[rid := Without(old(rooms)[rid], socketId, false).value]
                           && rooms[rid].prizePool == old(rooms)[rid].prizePool
                           && roomOrder == old(roomOrder)
      ensures players == old(players) && balances == old(balances)
    {
      var r := rooms[rid];
      var w := Without(r, socketId, false);
      if w.None? {
        DeleteRoom(rid);
        deleted := true;
      } else {
        LeaveForfeits(r, socketId);
        TrackedLeave(rooms, roomOrder, rid, socketId, false);
        rooms := rooms[rid := w.value];
        deleted := false;
      }
    }

    /** `rooms.delete(rid)`, with the room's place in the creation order dropped too. */
    method DeleteRoom(rid: string)
      requires Valid() && rid in rooms
      modifies this
      ensures Valid()
      ensures rooms == old(rooms) - {rid} && rid !in roomOrder
      ensures roomOrder == RemoveAt(old(roomOrder), IndexOf(old(roomOrder), rid))
      ensures players == old(players) && balances == old(balances)
    {
      TrackedDelete(rooms, roomOrder, rid);
      roomOrder := RemoveAt(roomOrder, IndexOf(roomOrder, rid));
      rooms := rooms - {rid};
    }

    /** The cleanup timer as written: `removeFinishedRoom` is not defined anywhere, so the
        callback throws and the finished room stays stored. */
    method RemoveFinishedRoomAsWritten(roomId: string) returns (result: Result<bool>)
      ensures result == Threw(ReferenceError("removeFinishedRoom"))
    {
      result := Threw(ReferenceError("removeFinishedRoom"));
    }

    /** The cleanup timer as intended: the finished room is removed from the rooms Map. */
    method RemoveFinishedRoom(roomId: string) returns (result: Result<bool>)
      requires Valid()
      modifies this
      ensures Valid()
      ensures rooms == old(rooms) - {roomId} && roomId !in roomOrder
      ensures roomId in old(rooms) ==> roomOrder == RemoveAt(old(roomOrder), IndexOf(old(roomOrder), roomId))
      ensures roomId !in old(rooms) ==> roomOrder == old(roomOrder)
      ensures result == Ok(roomId in old(rooms))
      ensures players == old(players) && balances == old(balances)
    {
      result := Ok(roomId in rooms);
      if roomId in rooms {
        DeleteRoom(roomId);
      }
    }
  }
}
