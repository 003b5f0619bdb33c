// server_new.js: the `GameManager` object that owns every room and every
// connected player, and the socket handlers that drive it.  Rooms live in a
// map keyed by room id; `roomOrder` remembers the Map's insertion order.

module ServerNew {
  import opened Common
  import opened Puzzles
  import opened Ranking
  import opened Payouts
  import opened Rooms

  /** A connected socket: its id, display name, the room it last entered and its account. */
  datatype PlayerRecord = PlayerRecord(id: string, name: string, roomId: Option<string>,
                                       userId: Option<string>)

  /** What `submitAnswer` reports back. */
  datatype AnswerResult = AnswerResult(correct: bool, points: int, attempts: int,
                                       correctAnswer: string)

  /** What `endGame` returns; the payouts are in dollars. */
  datatype GameResults = GameResults(winner: string, finalScores: map<string, int>,
                                     rankings: seq<Standing>, payoutStructure: PayoutStructure)

  /** What `endRound` returns: null, the room itself, or the results of the game it ended. */
  datatype RoundOutcome = NoRoom | NextRound(room: Room) | GameOver(results: GameResults)

  /** What the `time_up` handler does once `endRound` has returned: nothing, announce the end
      of the game, or schedule the next question — on the room, or (`forRoom == false`) on
      the results object that `endRound` handed back in its place. */
  datatype TimeUpOutcome = Ignored | GameEnded(results: GameResults) | QuestionScheduled(forRoom: bool)

  /** A `question_updated` payload: the drawn puzzle (possibly `undefined`) and the round. */
  datatype Question = Question(puzzle: Option<Puzzle>, round: Option<int>)

  /** The results of a finished room: every member ranked by non-increasing score, the
      winner's name, and the payout table for the pool and head count. */
  function Results(r: Room): (g: GameResults)
    requires WellFormed(r)
    ensures NonIncreasing(g.rankings)
    ensures multiset(Ids(g.rankings)) == multiset(r.players)
    ensures |g.rankings| == |r.players|
    ensures g.winner == g.rankings[0].playerName
    ensures forall p :: p in r.players ==> ScoreOf(r.scores, p) <= g.rankings[0].score
    ensures g.payoutStructure == CalculatePayouts(r.prizePool, |r.players|)
    ensures g.finalScores == r.scores
  {
    var members := MemberStandings(r, r.players);
    var rankings := SortByScore(members);
    SortKeepsPlayers(members);
    forall p | p in r.players ensures ScoreOf(r.scores, p) <= rankings[0].score {
      var k := IndexOf(r.players, p);
      MemberStandingAt(r, r.players, k);
      FirstIsBest(members, k);
    }
    GameResults(rankings[0].playerName, r.scores, rankings,
                CalculatePayouts(r.prizePool, |r.players|))
  }

  lemma {:induction false} MemberStandingAt(r: Room, ids: seq<string>, k: nat)
    requires |r.players| == |r.playerNames|
    requires forall j :: 0 <= j < |ids| ==> ids[j] in r.players
    requires k < |ids|
    ensures |MemberStandings(r, ids)| == |ids|
    ensures MemberStandings(r, ids)[k] == StandingOf(r, ids[k])
    decreases k
  {
    if k > 0 {
      MemberStandingAt(r, ids[1..], k - 1);
    }
  }

  /** The rankings are the members' own standings, reordered: each carries the member's name
      from `playerNames` and the member's `room.scores` entry (0 when absent). So the winner is
      the name of a member whose score is the top one. */
  lemma ResultsOwnStandings(r: Room)
    requires WellFormed(r)
    ensures OwnStandings(r, Results(r).rankings)
    ensures multiset(Results(r).rankings) == multiset(MemberStandings(r, r.players))
    ensures var top := Results(r).rankings[0].playerId;
            && top in r.players
            && Results(r).winner == r.playerNames[IndexOf(r.players, top)]
            && Results(r).rankings[0].score == ScoreOf(r.scores, top)
  {
    var members := MemberStandings(r, r.players);
    assert Results(r).rankings == SortByScore(members);
    MemberStandingsOwn(r, r.players);
    SortKeepsOwn(r, members);
  }

  /** The `time_up` handler as written: `endRound` returns the results object when the game
      ends, that object has no `currentRound`, so the end-of-game branch is never taken and a
      question is scheduled on the results object instead. */
  function TimeUpAsWritten(e: RoundOutcome): TimeUpOutcome
    requires e.NextRound? ==> WellFormed(e.room)
  {
    match e
    case NoRoom => Ignored
    case NextRound(room) =>
      if room.currentRound > room.totalRounds then GameEnded(Results(room))
      else QuestionScheduled(true)
    case GameOver(_) => QuestionScheduled(false)
  }

  /** The handler as intended: announce the results `endRound` produced when the game ended. */
  function TimeUp(e: RoundOutcome): TimeUpOutcome {
    match e
    case NoRoom => Ignored
    case NextRound(_) => QuestionScheduled(true)
    case GameOver(results) => GameEnded(results)
  }

  /** As written, `game_ended` is never emitted for any outcome `endRound` can produce; the
      intended handler emits it exactly for the outcome that ends the game. */
  lemma TimeUpAnnouncesEnd(e: RoundOutcome)
    requires e.NextRound? ==> WellFormed(e.room) && e.room.currentRound <= e.room.totalRounds
    ensures !TimeUpAsWritten(e).GameEnded?
    ensures e.GameOver? ==> TimeUpAsWritten(e) == QuestionScheduled(false)
    ensures TimeUp(e).GameEnded? <==> e.GameOver?
    ensures !e.GameOver? ==> TimeUp(e) == TimeUpAsWritten(e)
  {
  }

  /** The rooms invariant: every stored room is well formed, keyed by its own id and holds
      one fee per member; `order` lists each room id once. */
  ghost predicate Stored(rooms: map<string, Room>, order: seq<string>) {
    && NoDuplicates(order)
    && (forall k :: k in rooms <==> k in order)
    && (forall k :: k in rooms ==> rooms[k].id == k && WellFormed(rooms[k]) && PoolBalanced(rooms[k]))
  }

  /** Replacing a stored room by a well-formed, balanced room with the same id keeps the invariant. */
  lemma StoredReplace(rooms: map<string, Room>, order: seq<string>, k: string, r: Room)
    requires Stored(rooms, order) && k in rooms && r.id == k && WellFormed(r) && PoolBalanced(r)
    ensures Stored(rooms[k := r], order)
  {
  }

  /** Replacing a stored room by one of the same shape keeps the invariant. */
  lemma StoredUpdate(rooms: map<string, Room>, order: seq<string>, k: string, r: Room)
    requires Stored(rooms, order) && k in rooms && SameShape(rooms[k], r)
    ensures Stored(rooms[k := r], order)
  {
    SameShapeKeeps(rooms[k], r);
  }

  class GameManager {
    var rooms: map<string, Room>
    var roomOrder: seq<string>
    var players: map<string, PlayerRecord>
    const puzzles: seq<Puzzle>

    ghost predicate Valid()
      reads this
    {
      Stored(rooms, roomOrder)
    }

    /** Start-up: no rooms, no players, and the puzzles read from the file or, when reading
        failed (`None`), the built-in list. */
    constructor (file: Option<seq<RawPuzzle>>)
      ensures Valid()
      ensures rooms == map[] && roomOrder == [] && players == map[]
      ensures puzzles == Catalogue(file, FallbackServerNew())
    {
      rooms := map[];
      roomOrder := [];
      players := map[];
      puzzles := Catalogue(file, FallbackServerNew());
    }

    /** `authenticate`: (re)register the socket with a generated name and no room. */
    method Authenticate(socketId: string, name: string, userId: Option<string>)
      requires Valid()
      modifies this
      ensures Valid()
      ensures players == old(players)[socketId := PlayerRecord(socketId, name, None, userId)]
      ensures rooms == old(rooms) && roomOrder == old(roomOrder)
    {
      players := players[socketId := PlayerRecord(socketId, name, None, userId)];
    }

    /** `createRoom`: store a new waiting room under `roomId`, replacing any room with that
        id (which keeps its place in the Map's order). */
    method CreateRoom(roomId: string, roomName: string, entryFee: int, hostId: string, hostName: string)
      returns (room: Room)
      requires Valid()
      modifies this
      ensures Valid()
      ensures room == NewRoom(roomId, roomName, entryFee, hostId, hostName)
      ensures rooms == old(rooms)[roomId := room]
      ensures roomOrder == if roomId in old(rooms) then old(roomOrder) else old(roomOrder) + [roomId]
      ensures players == old(players)
    {
      room := NewRoom(roomId, roomName, entryFee, hostId, hostName);
      if roomId !in rooms {
        roomOrder := roomOrder + [roomId];
      }
      rooms := rooms[roomId := room];
    }

    /** The `create_room` handler: only a registered socket may create, and it becomes the
        host and records the room as its own. */
    method OnCreateRoom(socketId: string, roomId: string, roomName: string, entryFee: int)
      returns (created: Option<Room>)
      requires Valid()
      modifies this
      ensures Valid()
      ensures socketId !in old(players) ==> created == None && unchanged(this)
      ensures socketId in old(players) ==>
                var p := old(players)[socketId];
                && created == Some(NewRoom(roomId, roomName, entryFee, socketId, p.name))
                && rooms == old(rooms)[roomId := created.value]
                && roomOrder == (if roomId in old(rooms) then old(roomOrder) else old(roomOrder) + [roomId])
                && players == old(players)[socketId := p.(roomId := Some(roomId))]
    {
      if socketId !in players {
        return None;
      }
      var p := players[socketId];
      var room := CreateRoom(roomId, roomName, entryFee, socketId, p.name);
      players := players[socketId := p.(roomId := Some(roomId))];
      created := Some(room);
    }

    /** `joinRoom`: refused (null, nothing changed) when the room is missing, not waiting, or
        full. There is no check that the player is already a member. */
    method JoinRoom(roomId: string, playerId: string, playerName: string) returns (room: Option<Room>)
      requires Valid()
      modifies this
      ensures Valid()
      ensures roomId !in old(rooms) || !Open(old(rooms)[roomId]) ==> room == None && unchanged(this)
      ensures roomId in old(rooms) && Open(old(rooms)[roomId]) ==>
                && room == Some(Joined(old(rooms)[roomId], playerId, playerName))
                && rooms == old(rooms)[roomId := room.value]
                && roomOrder == old(roomOrder) && players == old(players)
    {
      if roomId !in rooms || !Open(rooms[roomId]) {
        return None;
      }
      var r := Joined(rooms[roomId], playerId, playerName);
      JoinKeepsShape(rooms[roomId], playerId, playerName);
      rooms := rooms[roomId := r];
      room := Some(r);
    }

    /** The `join_room` handler: a registered socket joins under its own name and records the
        room when the join succeeds. */
    method OnJoinRoom(socketId: string, roomId: string) returns (room: Option<Room>)
      requires Valid()
      modifies this
      ensures Valid()
      ensures socketId !in old(players) ==> room == None && unchanged(this)
      ensures socketId in old(players) && (roomId !in old(rooms) || !Open(old(rooms)[roomId])) ==>
                room == None && unchanged(this)
      ensures socketId in old(players) && roomId in old(rooms) && Open(old(rooms)[roomId]) ==>
                var p := old(players)[socketId];
                && room == Some(Joined(old(rooms)[roomId], socketId, p.name))
                && rooms == old(rooms)[roomId := room.value]
                && roomOrder == old(roomOrder)
                && players == old(players)[socketId := p.(roomId := Some(roomId))]
    {
      if socketId !in players {
        return None;
      }
      var p := players[socketId];
      room := JoinRoom(roomId, socketId, p.name);
      if room.Some? {
        players := players[socketId := p.(roomId := Some(roomId))];
      }
    }

    /** `startGame`: needs the room and at least two members, and nothing else — the status is
        not checked, so a running or finished game can be restarted. The answers are cleared. */
    method StartGame(roomId: string) returns (room: Option<Room>)
      requires Valid()
      modifies this
      ensures Valid()
      ensures roomId !in old(rooms) || |old(rooms)[roomId].players| < 2 ==> room == None && unchanged(this)
      ensures roomId in old(rooms) && |old(rooms)[roomId].players| >= 2 ==>
                && room == Some(Started(old(rooms)[roomId]).(answers := map[]))
                && rooms == old(rooms)[roomId := room.value]
                && roomOrder == old(roomOrder) && players == old(players)
    {
      if roomId !in rooms || |rooms[roomId].players| < 2 {
        return None;
      }
      var r := Started(rooms[roomId]).(answers := map[]);
      StoredUpdate(rooms, roomOrder, roomId, r);
      rooms := rooms[roomId := r];
      room := Some(r);
    }

    /** `players.get(id)?.name || 'Unknown'`. */
    function NameOf(playerId: string): string
      reads this
    {
      if playerId in players && players[playerId].name != "" then players[playerId].name else "Unknown"
    }

    /** `submitAnswer`: null unless the room is playing. Otherwise the attempt is recorded and,
        on the first correct attempt, scored. With no current puzzle the attempt is recorded as
        incorrect and building the reply then throws. */
    method SubmitAnswer(roomId: string, playerId: string, answer: string)
      returns (result: Result<Option<AnswerResult>>)
      requires Valid()
      modifies this
      ensures Valid()
      ensures roomId !in old(rooms) || old(rooms)[roomId].status != Playing ==>
                result == Ok(None) && unchanged(this)
      ensures roomId in old(rooms) && old(rooms)[roomId].status == Playing ==>
                var r := old(rooms)[roomId];
                && roomOrder == old(roomOrder) && players == old(players)
                && (r.currentPuzzle.None? ==>
                      && rooms == old(rooms)[roomId := Submitted(r, playerId, old(NameOf(playerId)), answer, false, 0)]
                      && result.Threw? && result.error.TypeError?)
                && (r.currentPuzzle.Some? ==>
                      var p := r.currentPuzzle.value;
                      var c := IsCorrect(p, answer);
                      && rooms == old(rooms)[roomId := Submitted(r, playerId, old(NameOf(playerId)), answer, c, p.points)]
                      && result == Ok(Some(AnswerResult(c, if c then p.points else 0,
                                                        |PriorAttempts(r, playerId)| + 1, p.answer))))
    {
      if roomId !in rooms || rooms[roomId].status != Playing {
        return Ok(None);
      }
      var r := rooms[roomId];
      var name := NameOf(playerId);
      if r.currentPuzzle.None? {
        StoredUpdate(rooms, roomOrder, roomId, Submitted(r, playerId, name, answer, false, 0));
        rooms := rooms[roomId := Submitted(r, playerId, name, answer, false, 0)];
        return Threw(TypeError("Cannot read properties of null (reading 'answer')"));
      }
      var p := r.currentPuzzle.value;
      var c := IsCorrect(p, answer);
      var r' := Submitted(r, playerId, name, answer, c, p.points);
      SubmitEffect(r, playerId, name, answer, c, p.points);
      StoredUpdate(rooms, roomOrder, roomId, r');
      rooms := rooms[roomId := r'];
      result := Ok(Some(AnswerResult(c, if c then p.points else 0,
                                     |r'.answers[playerId].attempts|, p.answer)));
    }

    /** `endGame`: marks the room finished and returns its results; null without a room. */
    method EndGame(roomId: string) returns (results: Option<GameResults>)
      requires Valid()
      modifies this
      ensures Valid()
      ensures roomId !in old(rooms) ==> results == None && unchanged(this)
      ensures roomId in old(rooms) ==>
                && rooms == old(rooms)[roomId := old(rooms)[roomId].(status := Finished)]
                && results == Some(Results(old(rooms)[roomId]))
                && roomOrder == old(roomOrder) && players == old(players)
    {
      if roomId !in rooms {
        return None;
      }
      var r := rooms[roomId];
      StoredUpdate(rooms, roomOrder, roomId, r.(status := Finished));
      rooms := rooms[roomId := r.(status := Finished)];
      results := Some(Results(r));
    }

    /** `endRound`: no status check; the round counter goes up by exactly one, and exactly
        when the new round passes the last one the game ends as `EndGame` ends it. */
    method EndRound(roomId: string) returns (outcome: RoundOutcome)
      requires Valid()
      modifies this
      ensures Valid()
      ensures roomId !in old(rooms) ==> outcome == NoRoom && unchanged(this)
      ensures roomId in old(rooms) ==>
                var r := RoundAdvanced(old(rooms)[roomId]);
                && roomOrder == old(roomOrder) && players == old(players)
                && (r.currentRound > r.totalRounds ==>
                      rooms == old(rooms)[roomId := r.(status := Finished)] && outcome == GameOver(Results(r)))
                && (r.currentRound <= r.totalRounds ==>
                      rooms == old(rooms)[roomId := r] && outcome == NextRound(r))
    {
      if roomId !in rooms {
        return NoRoom;
      }
      var r := RoundAdvanced(rooms[roomId]);
      var ends := r.currentRound > r.totalRounds;
      var stored := if ends then r.(status := Finished) else r;
      StoredUpdate(rooms, roomOrder, roomId, stored);
      rooms := rooms[roomId := stored];
      outcome := if ends then GameOver(Results(r)) else NextRound(r);
    }

    /** The `time_up` handler as written (see `TimeUpAsWritten`). */
    method OnTimeUpAsWritten(roomId: string) returns (outcome: TimeUpOutcome)
      requires Valid()
      modifies this
      ensures Valid()
      ensures !outcome.GameEnded?
      ensures roomId in old(rooms) && old(rooms)[roomId].currentRound + 1 > TotalRounds ==>
                outcome == QuestionScheduled(false) && roomId in rooms && rooms[roomId].status == Finished
      ensures roomId !in old(rooms) ==> outcome == Ignored && unchanged(this)
      ensures roomId in old(rooms) ==>
                var r := RoundAdvanced(old(rooms)[roomId]);
                && (r.currentRound > r.totalRounds ==> rooms == old(rooms)[roomId := r.(status := Finished)])
                && (r.currentRound <= r.totalRounds ==> rooms == old(rooms)[roomId := r])
      ensures roomOrder == old(roomOrder) && players == old(players)
    {
      var e := EndRound(roomId);
      TimeUpAnnouncesEnd(e);
      outcome := TimeUpAsWritten(e);
    }

    /** The `time_up` handler as intended: the game-ended announcement is made exactly when the
        round passes the last one. */
    method OnTimeUp(roomId: string) returns (outcome: TimeUpOutcome)
      requires Valid()
      modifies this
      ensures Valid()
      ensures outcome.GameEnded? <==> roomId in old(rooms) && old(rooms)[roomId].currentRound + 1 > TotalRounds
      ensures outcome.GameEnded? ==>
                outcome.results == Results(RoundAdvanced(old(rooms)[roomId])) &&
                roomId in rooms && rooms[roomId].status == Finished
      ensures outcome == QuestionScheduled(true) <==>
                roomId in old(rooms) && old(rooms)[roomId].currentRound + 1 <= TotalRounds
      ensures roomId !in old(rooms) ==> outcome == Ignored && unchanged(this)
      ensures roomId in old(rooms) ==>
                var r := RoundAdvanced(old(rooms)[roomId]);
                && (r.currentRound > r.totalRounds ==> rooms == old(rooms)[roomId := r.(status := Finished)])
                && (r.currentRound <= r.totalRounds ==> rooms == old(rooms)[roomId := r])
      ensures roomOrder == old(roomOrder) && players == old(players)
    {
      var e := EndRound(roomId);
      TimeUpAnnouncesEnd(e);
      outcome := TimeUp(e);
    }

    /** The question scheduled on the results object: the round is `undefined`, so it is drawn
        from the hard tier, and no room changes. */
    function StrayQuestion(choice: nat): (q: Question)
      ensures q.round == None
      ensures q.puzzle.Some? ==> q.puzzle.value.difficulty == "hard"
    {
      Question(Draw(puzzles, None, choice), None)
    }

    /** The deferred next question as written: the puzzle is drawn for the room's round at the
        moment the timer fires and installed, and last round's answers are kept. */
    method DeliverQuestionAsWritten(roomId: string, choice: nat) returns (q: Option<Question>)
      requires Valid()
      modifies this
      ensures Valid()
      ensures roomId !in old(rooms) ==> q == None && unchanged(this)
      ensures roomId in old(rooms) ==>
                var r := old(rooms)[roomId];
                && q == Some(Question(Draw(puzzles, Some(r.currentRound), choice), Some(r.currentRound)))
                && rooms == old(rooms)[roomId := WithPuzzle(r, q.value.puzzle)]
                && roomOrder == old(roomOrder) && players == old(players)
    {
      if roomId !in rooms {
        return None;
      }
      var r := rooms[roomId];
      var puzzle := Draw(puzzles, Some(r.currentRound), choice);
      StoredUpdate(rooms, roomOrder, roomId, WithPuzzle(r, puzzle));
      rooms := rooms[roomId := WithPuzzle(r, puzzle)];
      q := Some(Question(puzzle, Some(r.currentRound)));
    }

    /** The deferred next question with the previous round's answers cleared, so that every
        player can score again in the new round. */
    method DeliverQuestion(roomId: string, choice: nat) returns (q: Option<Question>)
      requires Valid()
      modifies this
      ensures Valid()
      ensures roomId !in old(rooms) ==> q == None && unchanged(this)
      ensures roomId in old(rooms) ==>
                var r := old(rooms)[roomId];
                && q == Some(Question(Draw(puzzles, Some(r.currentRound), choice), Some(r.currentRound)))
                && rooms == old(rooms)[roomId := WithFreshRound(r, q.value.puzzle)]
                && roomOrder == old(roomOrder) && players == old(players)
    {
      if roomId !in rooms {
        return None;
      }
      var r := rooms[roomId];
      var puzzle := Draw(puzzles, Some(r.currentRound), choice);
      StoredUpdate(rooms, roomOrder, roomId, WithFreshRound(r, puzzle));
      rooms := rooms[roomId := WithFreshRound(r, puzzle)];
      q := Some(Question(puzzle, Some(r.currentRound)));
    }

    /** `getAvailableRooms`: the waiting, not-full rooms, in creation order. */
    method GetAvailableRooms() returns (list: seq<RoomSummary>)
      requires Valid()
      ensures list == OpenRooms(rooms, roomOrder)
      ensures forall i :: 0 <= i < |roomOrder| && Open(rooms[roomOrder[i]]) ==>
                Summary(rooms[roomOrder[i]]) in list
    {
      list := OpenRooms(rooms, roomOrder);
    }

    /** `removePlayer`: a registered player with a room leaves it with a refund of one fee
        (see `Rooms.Without`); the room is deleted when its last member, the host, leaves;
        the player record is then deleted in every case that reaches it. */
    method RemovePlayer(playerId: string)
      requires Valid()
      modifies this
      ensures Valid()
      ensures playerId !in old(players) || old(players)[playerId].roomId in {None, Some("")} ==>
                unchanged(this)
      ensures playerId in old(players) && old(players)[playerId].roomId !in {None, Some("")} ==>
                var rid := old(players)[playerId].roomId.value;
                && players == old(players) - {playerId}
                && (rid !in old(rooms) ==> rooms == old(rooms) && roomOrder == old(roomOrder))
                && (rid in old(rooms) && Without(old(rooms)[rid], playerId, true).None? ==>
                      && rooms == old(rooms) - {rid} && rid !in roomOrder
                      && roomOrder == RemoveAt(old(roomOrder), IndexOf(old(roomOrder), rid)))
                && (rid in old(rooms) && Without(old(rooms)[rid], playerId, true).Some? ==>
                      && rooms == old(rooms)[rid := Without(old(rooms)[rid], playerId, true).value]
                      && roomOrder == old(roomOrder))
    {
      if playerId !in players || players[playerId].roomId in {None, Some("")} {
        return;
      }
      var rid := players[playerId].roomId.value;
      if rid in rooms {
        var r := rooms[rid];
        LeaveKeepsShape(r, playerId, true);
        match Without(r, playerId, true)
        case None =>
          DeleteRoom(rid);
        case Some(r') =>
          LeaveEffect(r, playerId, true);
          StoredReplace(rooms, roomOrder, rid, r');
          rooms := rooms[rid := r'];
      }
      players := players - {playerId};
    }

    /** `this.rooms.delete(rid)`, with the room's place in the creation order dropped too. */
    method DeleteRoom(rid: string)
      requires Valid() && rid in rooms
      modifies this
      ensures Valid()
      ensures rooms == old(rooms) - {rid} && rid !in roomOrder
      ensures roomOrder == RemoveAt(old(roomOrder), IndexOf(old(roomOrder), rid))
      ensures players == old(players)
    {
      var i := IndexOf(roomOrder, rid);
      RemoveAtNoDuplicates(roomOrder, i);
      roomOrder := RemoveAt(roomOrder, i);
      rooms := rooms - {rid};
    }
  }

  /** Fee accounting: a member who joins and then leaves an open room takes the fee back out
      of the pool, leaving it as before the join. */
  lemma JoinThenLeaveRefunds(r: Room, playerId: string, playerName: string)
    requires WellFormed(r) && Open(r) && playerId != r.hostId && playerId !in r.players
    ensures WellFormed(Joined(r, playerId, playerName))
    ensures Without(Joined(r, playerId, playerName), playerId, true).Some?
    ensures Without(Joined(r, playerId, playerName), playerId, true).value.prizePool == r.prizePool
    ensures Without(Joined(r, playerId, playerName), playerId, true).value.players == r.players
  {
    var j := Joined(r, playerId, playerName);
    JoinKeepsShape(r, playerId, playerName);
    LeaveKeepsShape(j, playerId, true);
    LeaveEffect(j, playerId, true);
    IndexOfAt(j.players, playerId, |r.players|);
    assert j.players[..|r.players|] == r.players;
    assert RemoveAt(j.players, |r.players|) == r.players;
  }
}
