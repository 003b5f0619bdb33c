// The room record both servers keep and the changes their handlers make to
// it, written as functions from the old record to the new one.  The server
// classes store rooms in a map and apply these functions in place of the
// JavaScript field assignments.

module Rooms {
  import opened Common
  import opened Puzzles
  import opened Ranking

  const MaxPlayers: int := 6
  const TotalRounds: int := 5

  datatype Status = Waiting | Playing | Finished

  datatype Attempt = Attempt(answer: string, correct: bool)

  /** A player's answers in the current round: every attempt, whether one was correct, and
      the points that correct attempt earned. */
  datatype AnswerRecord = AnswerRecord(attempts: seq<Attempt>, correct: bool, points: int,
                                       playerName: string)

  /** A room. `entryFee` is in dollars and `prizePool` in cents; `players` and `playerNames`
      are parallel arrays. */
  datatype Room = Room(
    id: string, name: string, entryFee: int, prizePool: int,
    hostId: string, hostName: string,
    players: seq<string>, playerNames: seq<string>,
    status: Status, maxPlayers: int, currentRound: int, totalRounds: int,
    scores: map<string, int>, answers: map<string, AnswerRecord>,
    gameStarted: bool, currentPuzzle: Option<Puzzle>)

  /** The shape every stored room keeps: parallel arrays, between one member and the
      capacity, fixed capacity and round count, and a host who is a member and whose name
      sits at the host's first position. */
  predicate WellFormed(r: Room) {
    && |r.players| == |r.playerNames|
    && 1 <= |r.players| <= r.maxPlayers
    && r.maxPlayers == MaxPlayers
    && r.totalRounds == TotalRounds
    && r.hostId in r.players
    && r.hostName == r.playerNames[IndexOf(r.players, r.hostId)]
  }

  /** The pool holds one entry fee, in cents, per current member. */
  predicate PoolBalanced(r: Room) {
    r.prizePool == r.entryFee * 100 * |r.players|
  }

  /** Two records agree on everything `WellFormed` and `PoolBalanced` look at. */
  predicate SameShape(a: Room, b: Room) {
    && a.id == b.id && a.players == b.players && a.playerNames == b.playerNames
    && a.hostId == b.hostId && a.hostName == b.hostName && a.maxPlayers == b.maxPlayers
    && a.totalRounds == b.totalRounds && a.entryFee == b.entryFee && a.prizePool == b.prizePool
  }

  lemma SameShapeKeeps(a: Room, b: Room)
    requires SameShape(a, b) && WellFormed(a)
    ensures WellFormed(b) && (PoolBalanced(a) ==> PoolBalanced(b))
  {
  }

  /** `room.scores[id] || 0`. */
  function ScoreOf(scores: map<string, int>, id: string): int {
    if id in scores then scores[id] else 0
  }

  /** The room a host opens: waiting, with the host as its only member and one fee in the pool. */
  function NewRoom(id: string, name: string, entryFee: int, hostId: string, hostName: string): (r: Room)
    ensures WellFormed(r) && PoolBalanced(r)
    ensures r.id == id && r.status == Waiting && r.players == [hostId] && r.hostId == hostId
    ensures r.prizePool == entryFee * 100
    ensures r.currentRound == 1 && r.totalRounds == 5 && r.maxPlayers == 6
    ensures r.scores == map[] && r.answers == map[] && !r.gameStarted && r.currentPuzzle == None
  {
    Room(id, name, entryFee, entryFee * 100, hostId, hostName, [hostId], [hostName],
         Waiting, MaxPlayers, 1, TotalRounds, map[], map[], false, None)
  }

  /** The status and capacity gate of a join. */
  predicate Open(r: Room) {
    r.status == Waiting && |r.players| < r.maxPlayers
  }

  /** A member appended with a zero score and one more fee in the pool. */
  function Joined(r: Room, playerId: string, playerName: string): Room {
    r.(players := r.players + [playerId], playerNames := r.playerNames + [playerName],
       scores := r.scores[playerId := 0], prizePool := r.prizePool + r.entryFee * 100)
  }

  /** A join through an open room keeps the room well formed and the pool balanced, appends
      exactly one id and one name, and gives the newcomer a zero score. */
  lemma JoinKeepsShape(r: Room, playerId: string, playerName: string)
    requires WellFormed(r) && Open(r)
    ensures var r' := Joined(r, playerId, playerName);
            && WellFormed(r')
            && (PoolBalanced(r) ==> PoolBalanced(r'))
            && r'.players == r.players + [playerId]
            && r'.playerNames == r.playerNames + [playerName]
            && ScoreOf(r'.scores, playerId) == 0
            && r'.prizePool == r.prizePool + r.entryFee * 100
            && r'.hostId == r.hostId && r'.status == r.status
  {
    IndexOfAppend(r.players, [playerId], r.hostId);
  }

  // ---- answers ----

  /** Whether the player already answered this round's puzzle correctly. */
  predicate WasCorrect(r: Room, playerId: string) {
    playerId in r.answers && r.answers[playerId].correct
  }

  function PriorAttempts(r: Room, playerId: string): seq<Attempt> {
    if playerId in r.answers then r.answers[playerId].attempts else []
  }

  /** One submission: the attempt is appended to the player's record (created on the first
      submission), and only a correct attempt on a record not yet correct marks it correct and
      adds `points` to the player's score. */
  function Submitted(r: Room, playerId: string, playerName: string, answer: string,
                     correct: bool, points: int): Room
  {
    var before := if playerId in r.answers then r.answers[playerId]
                  else AnswerRecord([], false, 0, playerName);
    var logged := before.(attempts := before.attempts + [Attempt(answer, correct)]);
    if correct && !before.correct then
      r.(answers := r.answers[playerId := logged.(correct := true, points := points)],
         scores := r.scores[playerId := ScoreOf(r.scores, playerId) + points])
    else
      r.(answers := r.answers[playerId := logged])
  }

  /** A submission appends exactly one attempt, never clears the correct flag, raises the
      submitter's score by `points` exactly on the first correct attempt, and touches nothing
      but that player's answer record and score. */
  lemma SubmitEffect(r: Room, playerId: string, playerName: string, answer: string,
                     correct: bool, points: int)
    ensures var r' := Submitted(r, playerId, playerName, answer, correct, points);
            && playerId in r'.answers
            && r'.answers[playerId].attempts == PriorAttempts(r, playerId) + [Attempt(answer, correct)]
            && r'.answers[playerId].correct == (WasCorrect(r, playerId) || correct)
            && ScoreOf(r'.scores, playerId) ==
               ScoreOf(r.scores, playerId) + (if correct && !WasCorrect(r, playerId) then points else 0)
            && (forall q :: q != playerId ==> ScoreOf(r'.scores, q) == ScoreOf(r.scores, q))
            && (forall q :: q != playerId && q in r.answers ==> q in r'.answers && r'.answers[q] == r.answers[q])
            && r'.(scores := r.scores, answers := r.answers) == r
  {
  }

  /** A player's submissions in one round, in order, against the round's puzzle. */
  function SubmitAll(r: Room, playerId: string, playerName: string, puzzle: Puzzle,
                     answers: seq<string>): Room
    decreases |answers|
  {
    if answers == [] then r
    else
      SubmitAll(Submitted(r, playerId, playerName, answers[0], IsCorrect(puzzle, answers[0]),
                          puzzle.points),
                playerId, playerName, puzzle, answers[1..])
  }

  /** However many answers a player sends in a round, the score rises by the puzzle's points
      once if some answer is correct and the player had not already scored, and otherwise not
      at all; all other scores stay as they were. */
  lemma {:induction false} OneAwardPerRound(r: Room, playerId: string, playerName: string,
                                            puzzle: Puzzle, answers: seq<string>)
    ensures var r' := SubmitAll(r, playerId, playerName, puzzle, answers);
            && ScoreOf(r'.scores, playerId) == ScoreOf(r.scores, playerId) +
               (if !WasCorrect(r, playerId) && exists i :: 0 <= i < |answers| && IsCorrect(puzzle, answers[i])
                then puzzle.points else 0)
            && (forall q :: q != playerId ==> ScoreOf(r'.scores, q) == ScoreOf(r.scores, q))
            && WasCorrect(r', playerId) ==
               (WasCorrect(r, playerId) || exists i :: 0 <= i < |answers| && IsCorrect(puzzle, answers[i]))
    decreases |answers|
  {
    if answers != [] {
      var c := IsCorrect(puzzle, answers[0]);
      var r1 := Submitted(r, playerId, playerName, answers[0], c, puzzle.points);
      SubmitEffect(r, playerId, playerName, answers[0], c, puzzle.points);
      OneAwardPerRound(r1, playerId, playerName, puzzle, answers[1..]);
      var tail := answers[1..];
      assert (exists i :: 0 <= i < |answers| && IsCorrect(puzzle, answers[i])) ==
             (c || exists i :: 0 <= i < |tail| && IsCorrect(puzzle, tail[i])) by {
        if exists i :: 0 <= i < |answers| && IsCorrect(puzzle, answers[i]) {
          var i :| 0 <= i < |answers| && IsCorrect(puzzle, answers[i]);
          if i > 0 { assert IsCorrect(puzzle, tail[i - 1]); }
        }
        if exists i :: 0 <= i < |tail| && IsCorrect(puzzle, tail[i]) {
          var i :| 0 <= i < |tail| && IsCorrect(puzzle, tail[i]);
          assert IsCorrect(puzzle, answers[i + 1]);
        }
      }
    }
  }

  // ---- leaving ----

  /** A member leaves: the first occurrence of the id is spliced out of both arrays at the
      same index and the score and answers are deleted; `refund` says whether one fee leaves
      the pool with the player.  A leaving host hands the role to the first remaining member,
      or the room is deleted (`None`) when nobody remains. */
  function Without(r: Room, playerId: string, refund: bool): Option<Room>
    requires |r.players| == |r.playerNames|
  {
    var i := IndexOf(r.players, playerId);
    var r1 := if i > -1 then
                r.(players := RemoveAt(r.players, i), playerNames := RemoveAt(r.playerNames, i),
                   scores := r.scores - {playerId}, answers := r.answers - {playerId},
                   prizePool := if refund then r.prizePool - r.entryFee * 100 else r.prizePool)
              else r;
    if r1.hostId == playerId then
      if |r1.players| > 0 then Some(r1.(hostId := r1.players[0], hostName := r1.playerNames[0]))
      else None
    else Some(r1)
  }

  /** Leaving deletes the room exactly when its only member, the host, leaves; otherwise the
      room stays well formed, the host role moves to the first member only when the host
      left, and status and fee stay as they were. */
  lemma LeaveKeepsShape(r: Room, playerId: string, refund: bool)
    requires WellFormed(r)
    ensures Without(r, playerId, refund).None? <==> playerId == r.hostId && |r.players| == 1
    ensures Without(r, playerId, refund).Some? ==>
            var r' := Without(r, playerId, refund).value;
            && WellFormed(r')
            && (playerId == r.hostId ==> r'.hostId == r'.players[0] && r'.hostName == r'.playerNames[0])
            && (playerId != r.hostId ==> r'.hostId == r.hostId && r'.hostName == r.hostName)
            && r'.status == r.status && r'.entryFee == r.entryFee
  {
    if playerId == r.hostId {
      LeaveAsHost(r, refund);
    } else if playerId in r.players {
      LeaveAsMember(r, playerId, refund);
    }
  }

  /** A member who leaves is spliced out of both arrays at the same index and loses score and
      answers; the pool gives back one fee with a refund and nothing without; leaving a room
      one is not in changes nothing. */
  lemma LeaveEffect(r: Room, playerId: string, refund: bool)
    requires WellFormed(r) && Without(r, playerId, refund).Some?
    ensures var r' := Without(r, playerId, refund).value;
            && (playerId in r.players ==>
                  var i := IndexOf(r.players, playerId);
                  && r'.players == RemoveAt(r.players, i)
                  && r'.playerNames == RemoveAt(r.playerNames, i)
                  && playerId !in r'.scores && playerId !in r'.answers
                  && r'.prizePool == r.prizePool - (if refund then r.entryFee * 100 else 0))
            && (playerId !in r.players ==> r' == r)
            && (refund && PoolBalanced(r) ==> PoolBalanced(r'))
  {
    var i := IndexOf(r.players, playerId);
    if i > -1 {
      var r' := Without(r, playerId, refund).value;
      var r1 := r.(players := RemoveAt(r.players, i), playerNames := RemoveAt(r.playerNames, i),
                   scores := r.scores - {playerId}, answers := r.answers - {playerId},
                   prizePool := if refund then r.prizePool - r.entryFee * 100 else r.prizePool);
      assert r' == r1 || r' == r1.(hostId := r1.players[0], hostName := r1.playerNames[0]);
      assert r'.players == r1.players && r'.prizePool == r1.prizePool;
      PoolAfterLeave(r.entryFee, |r.players|);
    }
  }

  lemma PoolAfterLeave(fee: int, n: int)
    ensures fee * 100 * n - fee * 100 == fee * 100 * (n - 1)
  {
  }

  lemma LeaveAsMember(r: Room, playerId: string, refund: bool)
    requires WellFormed(r) && playerId in r.players && playerId != r.hostId
    ensures Without(r, playerId, refund).Some?
    ensures WellFormed(Without(r, playerId, refund).value)
  {
    var i := IndexOf(r.players, playerId);
    var ps := RemoveAt(r.players, i);
    var ns := RemoveAt(r.playerNames, i);
    var r1 := r.(players := ps, playerNames := ns,
                 scores := r.scores - {playerId}, answers := r.answers - {playerId},
                 prizePool := if refund then r.prizePool - r.entryFee * 100 else r.prizePool);
    assert Without(r, playerId, refund) == Some(r1) by {
      assert 0 <= i && r1.hostId != playerId;
    }
    assert r.hostName == ns[IndexOf(ps, r.hostId)] && r.hostId in ps by {
      IndexOfRemoveAt(r.players, i, r.hostId);
      var h := IndexOf(r.players, r.hostId);
      if i < h {
        assert ns[h - 1] == r.playerNames[h];
      } else {
        assert ns[h] == r.playerNames[h];
      }
    }
    assert WellFormed(r1);
  }

  lemma LeaveAsHost(r: Room, refund: bool)
    requires WellFormed(r)
    ensures Without(r, r.hostId, refund).None? <==> |r.players| == 1
    ensures Without(r, r.hostId, refund).Some? ==> WellFormed(Without(r, r.hostId, refund).value)
  {
    if |r.players| > 1 {
      var i := IndexOf(r.players, r.hostId);
      var ps := RemoveAt(r.players, i);
      var r' := Without(r, r.hostId, refund).value;
      assert r'.players == ps && r'.hostId == ps[0] && r'.hostName == r'.playerNames[0];
      IndexOfAt(ps, ps[0], 0);
    }
  }

  // ---- the round cycle ----

  /** A start: playing, marked started, back at round 1. */
  function Started(r: Room): Room {
    r.(status := Playing, gameStarted := true, currentRound := 1)
  }

  function RoundAdvanced(r: Room): Room {
    r.(currentRound := r.currentRound + 1)
  }

  /** The next round's puzzle installed, the round's answers kept as they are. */
  function WithPuzzle(r: Room, puzzle: Option<Puzzle>): Room {
    r.(currentPuzzle := puzzle)
  }

  /** The next round's puzzle installed with the answers of the previous round cleared. */
  function WithFreshRound(r: Room, puzzle: Option<Puzzle>): Room {
    r.(currentPuzzle := puzzle, answers := map[])
  }

  /** Keeping last round's answers blocks scoring: a player who answered correctly before
      gets nothing for a correct answer to the next puzzle. Clearing them lets the same answer
      score the new puzzle's points. */
  lemma StaleAnswersBlockScoring(r: Room, playerId: string, playerName: string, answer: string,
                                 puzzle: Puzzle)
    requires WasCorrect(r, playerId) && IsCorrect(puzzle, answer)
    ensures ScoreOf(Submitted(WithPuzzle(r, Some(puzzle)), playerId, playerName, answer, true,
                              puzzle.points).scores, playerId) == ScoreOf(r.scores, playerId)
    ensures ScoreOf(Submitted(WithFreshRound(r, Some(puzzle)), playerId, playerName, answer, true,
                              puzzle.points).scores, playerId) == ScoreOf(r.scores, playerId) + puzzle.points
  {
    SubmitEffect(WithPuzzle(r, Some(puzzle)), playerId, playerName, answer, true, puzzle.points);
    SubmitEffect(WithFreshRound(r, Some(puzzle)), playerId, playerName, answer, true, puzzle.points);
  }

  // ---- standings ----

  /** One standing: the id, the name at the id's first position, the score or 0. */
  function StandingOf(r: Room, playerId: string): Standing
    requires |r.players| == |r.playerNames| && playerId in r.players
  {
    Standing(playerId, r.playerNames[IndexOf(r.players, playerId)], ScoreOf(r.scores, playerId))
  }

  /** `room.players.map(id => ...)`: one standing per member, in member order. */
  function MemberStandings(r: Room, ids: seq<string>): (s: seq<Standing>)
    requires |r.players| == |r.playerNames|
    requires forall k :: 0 <= k < |ids| ==> ids[k] in r.players
    ensures Ids(s) == ids
  {
    if ids == [] then []
    else
      var rest := MemberStandings(r, ids[1..]);
      assert ([StandingOf(r, ids[0])] + rest)[1..] == rest;
      assert ids == [ids[0]] + ids[1..];
      [StandingOf(r, ids[0])] + rest
  }

  /** `Object.keys(room.scores)` filtered to members, one standing each, in `keys` order; keys
      listed once give standings listed once. */
  function ScoredStandings(r: Room, keys: seq<string>): (s: seq<Standing>)
    requires |r.players| == |r.playerNames|
    ensures forall id :: id in Ids(s) <==> id in keys && id in r.players
    ensures NoDuplicates(keys) ==> NoDuplicates(Ids(s))
  {
    if keys == [] then []
    else
      var rest := ScoredStandings(r, keys[1..]);
      NoDuplicatesCons(keys);
      if IndexOf(r.players, keys[0]) >= 0 then
        assert ([StandingOf(r, keys[0])] + rest)[1..] == rest;
        NoDuplicatesCons(Ids([StandingOf(r, keys[0])] + rest));
        [StandingOf(r, keys[0])] + rest
      else
        assert forall id :: id in keys <==> id == keys[0] || id in keys[1..];
        rest
  }

  /** Each standing is a member's own: its name from `playerNames` and its score from
      `room.scores` (0 when absent). */
  ghost predicate OwnStandings(r: Room, s: seq<Standing>)
    requires |r.players| == |r.playerNames|
  {
    forall i :: 0 <= i < |s| ==> s[i].playerId in r.players && s[i] == StandingOf(r, s[i].playerId)
  }

  /** `room.players.map(...)` gives each member its own standing. */
  lemma {:induction false} MemberStandingsOwn(r: Room, ids: seq<string>)
    requires |r.players| == |r.playerNames|
    requires forall k :: 0 <= k < |ids| ==> ids[k] in r.players
    ensures OwnStandings(r, MemberStandings(r, ids))
  {
    if ids != [] {
      var rest := MemberStandings(r, ids[1..]);
      MemberStandingsOwn(r, ids[1..]);
      var s := [StandingOf(r, ids[0])] + rest;
      assert MemberStandings(r, ids) == s;
      forall i | 0 <= i < |s|
        ensures s[i].playerId in r.players && s[i] == StandingOf(r, s[i].playerId)
      {
        if i > 0 {
          assert s[i] == rest[i - 1];
        }
      }
    }
  }

  /** Sorting own standings gives own standings. */
  lemma SortKeepsOwn(r: Room, s: seq<Standing>)
    requires |r.players| == |r.playerNames| && OwnStandings(r, s)
    ensures OwnStandings(r, SortByScore(s))
  {
    var t := SortByScore(s);
    SortedMembers(s);
    forall i | 0 <= i < |t|
      ensures t[i].playerId in r.players && t[i] == StandingOf(r, t[i].playerId)
    {
      assert t[i] in s;
      var j :| 0 <= j < |s| && s[j] == t[i];
    }
  }

  lemma {:induction false} ScoredStandingsOf(r: Room, keys: seq<string>)
    requires |r.players| == |r.playerNames|
    ensures OwnStandings(r, ScoredStandings(r, keys))
  {
    if keys != [] {
      var rest := ScoredStandings(r, keys[1..]);
      ScoredStandingsOf(r, keys[1..]);
      if IndexOf(r.players, keys[0]) >= 0 {
        var s := [StandingOf(r, keys[0])] + rest;
        assert ScoredStandings(r, keys) == s;
        forall i | 0 <= i < |s|
          ensures s[i].playerId in r.players && s[i] == StandingOf(r, s[i].playerId)
        {
          if i > 0 {
            assert s[i] == rest[i - 1];
          }
        }
      }
    }
  }

  /** What `Object.keys(room.scores)` lists: every key of the scores once. */
  ghost predicate ScoreKeys(r: Room, keys: seq<string>) {
    NoDuplicates(keys) && forall k :: k in keys <==> k in r.scores
  }

  /** The standings read only the members, their names and the scores. */
  lemma {:induction false} ScoredStandingsReadsScores(r: Room, r': Room, keys: seq<string>)
    requires |r.players| == |r.playerNames|
    requires r'.players == r.players && r'.playerNames == r.playerNames && r'.scores == r.scores
    ensures ScoredStandings(r', keys) == ScoredStandings(r, keys)
    decreases |keys|
  {
    if keys != [] {
      ScoredStandingsReadsScores(r, r', keys[1..]);
    }
  }

  // ---- the lobby list ----

  datatype RoomSummary = RoomSummary(id: string, name: string, entryFee: int, playerCount: int,
                                     maxPlayers: int)

  function Summary(r: Room): RoomSummary {
    RoomSummary(r.id, r.name, r.entryFee, |r.players|, r.maxPlayers)
  }

  /** `Array.from(rooms.values()).filter(waiting and not full).map(summary)`, with the Map's
      insertion order given by `order`. */
  function OpenRooms(rooms: map<string, Room>, order: seq<string>): (list: seq<RoomSummary>)
    requires forall k :: k in order ==> k in rooms
    ensures |list| <= |order|
    ensures forall s :: s in list <==>
              exists i :: 0 <= i < |order| && Open(rooms[order[i]]) && s == Summary(rooms[order[i]])
    ensures forall s :: s in list ==> s.playerCount < s.maxPlayers
  {
    if order == [] then []
    else
      var rest := OpenRooms(rooms, order[1..]);
      assert forall i :: 1 <= i < |order| ==> order[i] == order[1..][i - 1];
      assert forall i :: 0 <= i < |order| - 1 ==> order[1..][i] == order[i + 1];
      if Open(rooms[order[0]]) then [Summary(rooms[order[0]])] + rest else rest
  }
}
