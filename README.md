# Rebus trivia rooms: a Dafny model

This project models the core of a real-money rebus-puzzle trivia service, with proofs about that model.

Players connect over a socket and open or join a room. A room charges a dollar entry fee, which goes into a prize pool held in cents. A game of five rounds starts once the room has at least two members; in `server.js` only the host may start it. Each round draws a puzzle whose tier depends on the round number. A player's first correct answer in a round scores the puzzle's points. When the game ends, the room ranks its players by score. The pool is then split by a fixed table: a 6% house edge, and the remaining 94% shared among the top finishers.

There are two server variants:

- **`server_new.js`** keeps everything in a `GameManager` object. It is modelled by the class `ServerNew.GameManager`.
- **`server.js`** keeps global Maps and also keeps an account ledger (`userBalances`). Joining and creating a room debit it; the payout loop credits it. It is modelled by the class `SocketServer.Server`.

The two variants differ on fees. When a player leaves a `GameManager` room, one fee is taken back out of the pool; `server_new.js` keeps no ledger, so no account is credited. A player who disconnects from a `server.js` room forfeits the fee, which stays in the pool.

Around the game there are three groups of small, mostly pure functions:

- **Card forms** (`payment-forms.js`): the Luhn check of ISO/IEC 7812-1 (Annex B), card-number grouping and expiry formatting.
- **Profile** (`user-profile.js`): profile completeness, age, the location line, the verification flags and the setup steps.
- **Compliance** (`legal-compliance.js`): the jurisdiction rule, the age check and the middleware's bypass rule.

The modules follow the program:

| module | file | models |
|---|---|---|
| `Common` | common.dfy | `Option`, `Result` and JavaScript errors; `indexOf` and `splice` |
| `JsText` | jstext.dfy | the `\s` and `\d` classes, `replace(/\s/g,'')`, `replace(/\s+/g,'-')`, `replace(/\D/g,'')`, `toLowerCase` |
| `Puzzles` | puzzles.dfy | puzzle loading, the accepted spellings, the answer check, the round's tier |
| `Payouts` | payouts.dfy | the payout tables of both servers |
| `Ranking` | ranking.dfy | the stable sort of standings by score |
| `Rooms` | rooms.dfy | the room record, and each handler's change to it as a function |
| `ServerNew` | servernew.dfy | the `GameManager` class and its socket handlers |
| `SocketServer` | socketserver.dfy | the `server.js` handlers and balance ledger as a class |
| `CardForms` | cardforms.dfy | `validateCreditCard` (as a loop), `formatCardNumber`, `formatExpiryDate` |
| `UserProfile` | userprofile.dfy | `UserProfileManager` |
| `LegalCompliance` | legalcompliance.dfy | `LegalCompliance` without the network lookup |

## Modelling conventions

- **Rooms.** A stored room is a datatype value in a `map` field of the server class. Each handler replaces the value with the result of a `Rooms` function, the same change the JavaScript makes field by field. Each class keeps a `roomOrder` sequence for the Map's insertion order, which `getAvailableRooms`/`get_rooms` enumerate.
- **Class invariant.** `Valid()` is the invariant of each class:
  - every stored room is keyed by its own id;
  - it has parallel `players`/`playerNames` arrays;
  - it has between one and `maxPlayers` members;
  - in `server.js`, no member is listed twice.
- **Money.** Amounts are exact reals, or integer cents where the source multiplies by 100. Floating-point rounding is not reproduced.
- **Inputs instead of effects.** The random puzzle draw is a `choice: nat` parameter. The generated player names are inputs too: the `name` parameter of `SocketServer.Server.Connect` and of `ServerNew.GameManager.Authenticate`. A draw from a list of `n` puzzles takes index `choice % n`, so like `Math.floor(Math.random() * n)` it always lands inside a non-empty list. Whether the puzzle file could be read is the constructor's `file` parameter. Today's date is a `Date` parameter. The geolocation answer is `Option<Location>`.
- **Timers.** A callback that a timer would run is a separate method. The environment may call it when the timer fires.
- **Key order of `room.scores`.** The order `Object.keys` would list is the `keys` parameter of `SocketServer.Server.EndGame` and of the methods that call it. `Rooms.ScoreKeys` requires it to list every score key exactly once.

Two behaviours of the code are easy to misread:

1. **The `time_up` sequence of `server_new.js`** (494-515) does not end the game twice. `endRound` already calls `endGame` and returns its results object. That object has no `currentRound`, so `undefined > undefined` is false and the `endGame` branch is never taken. Instead the else branch schedules a question for round `undefined` (finding F2).
2. **The single-player start** that `test-game-flow.js:40` expects is refused by both servers (`server.js:510`, `server_new.js:164`). The model follows the servers: `StartGame` needs two members.

## Model

| member | source | states |
|---|---|---|
| `Common.IndexOf` | server_new.js:357 | `indexOf`: -1 exactly when absent, otherwise the first position holding the element |
| `Common.RemoveAt` | server_new.js:359-360 | `splice(i, 1)`: one element shorter; the elements before `i` stay, the rest shift down by one |
| `JsText.ToLower` | server.js:71 | `toLowerCase` on the Latin-1 range keeps the length; each capital A-Z and À-Þ (but not ×) becomes the small letter 32 code points above it, every other character is kept, and no such capital is left |
| `JsText.LowerLatinExample` | server.js:71 | `"CAFÉ"` lower-cases to `"café"` |
| `JsText.RemoveSpacesIdempotent` | payment-forms.js:288 | stripping whitespace twice is stripping it once |
| `JsText.RemoveSpacesAppend` | payment-forms.js:288 | stripping whitespace distributes over concatenation |
| `JsText.ReplaceSpaceRunsNoSpace` | server.js:74 | the hyphenated spelling contains no whitespace |
| `JsText.ReplaceSpaceRunsThenRemove` | server.js:73-74 | when the separator is not whitespace and does not occur in the input, deleting it from the separated spelling gives the whitespace-free spelling (so for answers without hyphens, deleting the hyphens from the hyphenated spelling does) |
| `JsText.TwoWordSpellings` | server.js:71-75 | for two whitespace-free words joined by a whitespace character, the stripped spelling is the words run together and the hyphenated one is the words joined by the separator |
| `Puzzles.DefaultedDifficulty` | server.js:77 | `difficulty \|\| 'easy'`: a present, non-empty difficulty is kept; otherwise it is `"easy"` |
| `Puzzles.Alternatives` | server.js:72-76 | exactly three accepted spellings are built from the answer |
| `Puzzles.Load` | server.js:69-79 | a loaded puzzle's answer and spellings are lower-cased; its points are the tier points of its stored difficulty (the corrected half of F4) |
| `Puzzles.LoadAsWrittenMisprices` | server.js:77-78 | as written, an entry without a difficulty is filed as easy but priced at 20 points |
| `Puzzles.LoadAgreesWhenDifficultyGiven` | server_new.js:97-98 | the written loader and the corrected one agree whenever the entry names a difficulty |
| `Puzzles.LoadAll` | server.js:69 | one loaded puzzle per file entry, in order |
| `Puzzles.DifficultyForRound` | server.js:311-319 | rounds up to 2 are easy, 3-4 medium, later rounds and an undefined round hard |
| `Puzzles.FilterDifficulty` | server_new.js:174-182 | the filter keeps exactly the puzzles of the tier |
| `Puzzles.Pick` | server.js:696 | `list[Math.floor(Math.random() * list.length)]`: the draw yields a puzzle exactly when the list is non-empty, and that puzzle is in the list |
| `Puzzles.EveryPuzzleDrawable` | server.js:696 | every entry of the list is the outcome of some draw |
| `Puzzles.Draw` | server.js:695-696 | the puzzle drawn for a round is `undefined` exactly when the catalogue has no puzzle of the round's tier; otherwise it is a catalogue puzzle of that tier |
| `Puzzles.TierOfRound` | server.js:311-319 | every puzzle drawn for a round is in the catalogue and has the round's tier |
| `Puzzles.IsCorrectIgnoresCase` | server.js:546 | the answer check ignores the Latin-1 letter case of the submission |
| `Puzzles.AcceptedSpellings` | server.js:69-79 | a submission is accepted exactly when, lower-cased, it is one of the lowered answer, its whitespace-free form or its hyphenated form |
| `Puzzles.AnswerInAnyCaseAccepted` | server_new.js:189 | any Latin-1 capitalisation of the answer is accepted |
| `Puzzles.TwoWordAnswerSpellings` | server.js:71-75 | for a two-word answer, the spaced, run-together and hyphenated spellings are all accepted |
| `Puzzles.ToLowerAppend` | server.js:71 | lower-casing distributes over concatenation |
| `Payouts.Shares` | server_new.js:275-298 | share tables exist for 2 to 6 players, with one entry fewer than players; other counts get none |
| `Payouts.Scale` | server_new.js:275-298 | each payout is the pot times its share |
| `Payouts.AmountAt` | server.js:773 | `payouts[position]` is defined exactly for positions 1 to n-1 |
| `Payouts.CalculatePayouts` | server_new.js:265-303 | total pot is the cents over 100; house take and player pot are 6% and 94% and add up to the total; 2-6 players get n-1 positions, any other count none |
| `Payouts.TournamentPayouts` | server.js:260-308 | the intended cent table: total pot is the pool, the house takes 6% and the players' pot is 94% of it, house take plus player pot is the total, and positions go as in `CalculatePayouts` (the corrected half of F1) |
| `Payouts.SharesSumToOne` | server_new.js:269-298 | every share table for 2-6 players adds up to exactly 1 |
| `Payouts.PayoutsSumToPlayerPot` | server_new.js:265-303 | for 2-6 players the payouts add up to exactly the player pot |
| `Payouts.TournamentSumsToPlayerPot` | server.js:260-294 | the same for the server.js table, in cents |
| `Payouts.PayoutsNonIncreasing` | server_new.js:275-298 | a better position never earns less, when the pool is not negative |
| `Payouts.TablesAgree` | server.js:269-294 | server.js amounts are 100 times the server_new.js amounts for the same pool |
| `Payouts.HeadToHeadExample` | server_new.js:273-276 | two players with a $20 pool: $18.80 to the winner, $1.20 to the house |
| `Payouts.ThreePlayerExample` | server_new.js:277-280 | three players with a $60 pool: $39.48 and $16.92; third place is not paid |
| `Ranking.Ids` | server_new.js:240-244 | one id per standing |
| `Ranking.Insert` | server_new.js:244 | inserting into a sorted list keeps it sorted and adds exactly the one element |
| `Ranking.SortByScore` | server_new.js:244 | the sorted standings are non-increasing by score and a permutation of the input (stability is `Ranking.SortIsStable`) |
| `Ranking.SortIds` | server.js:752 | sorting keeps the multiset of player ids |
| `Ranking.SortKeepsPlayers` | server.js:752 | the sorted standings list exactly the ranked players, with multiplicity and the same length |
| `Ranking.FirstIsBest` | server_new.js:250 | the first standing (the winner) has a score at least as high as any other |
| `Ranking.InsertTies` | server_new.js:244 | among the entries of any one score, the inserted entry comes first exactly when it has that score, and the others keep their order |
| `Ranking.SortIsStable` | server.js:752 | the sort is stable: for every score, the entries with that score keep their input order |
| `Rooms.SameShapeKeeps` | server_new.js:162-218 | a change that touches neither members nor fee nor pool keeps the room well formed and the pool balanced |
| `Rooms.NewRoom` | server_new.js:121-144 | a new room is waiting, with the host as its only member, a pool of fee times 100, round 1 of 5 and 6 seats |
| `Rooms.JoinKeepsShape` | server_new.js:146-160 | a join through an open room appends exactly one id and name, sets the score to 0, adds one fee in cents, and keeps the room well formed and balanced |
| `Rooms.SubmitEffect` | server_new.js:191-210 | a submission appends exactly one attempt; the correct flag never reverts; the score rises by the points only on the first correct attempt |
| `Rooms.OneAwardPerRound` | server_new.js:206-210 | however many answers a player sends in one round, the score rises by the puzzle's points at most once |
| `Rooms.LeaveKeepsShape` | server_new.js:355-381 | leaving deletes the room exactly when its only member, the host, leaves; otherwise the room stays well formed, and stays balanced when the fee is refunded |
| `Rooms.LeaveEffect` | server_new.js:358-366 | the leaver is spliced out of both arrays at the same index; its score and answers go; the pool loses one fee only with a refund |
| `Rooms.LeaveAsMember` | server_new.js:358-366 | a member who is not the host leaves and the room survives well formed |
| `Rooms.LeaveAsHost` | server_new.js:369-377 | when the host leaves, the room is deleted exactly when it empties; otherwise `players[0]` becomes host |
| `Rooms.StaleAnswersBlockScoring` | server_new.js:502-512 | keeping the last round's answers stops a player who was right last round from scoring; clearing them lets the player score |
| `Rooms.MemberStandings` | server_new.js:240-244 | one standing per member, in member order |
| `Rooms.ScoredStandings` | server.js:739-749 | a standing for exactly the score keys that are members; when no key repeats, no member is listed twice (what each standing holds is `Rooms.ScoredStandingsOf`) |
| `Rooms.ScoredStandingsOf` | server.js:739-749 | every standing is a member's own: that member's id, the name at the member's position in `playerNames`, and the member's `room.scores` entry (0 when absent) |
| `Rooms.ScoredStandingsReadsScores` | server.js:739-749 | the standings depend only on the members, their names and the scores |
| `Rooms.OpenRooms` | server_new.js:337-347 | the lobby lists exactly the waiting, not-full rooms, and none of them is full |
| `ServerNew.Results` | server_new.js:233-263 | rankings are non-increasing and list every member once; the first-ranked standing scores at least every member's `room.scores` entry and its name is the winner; the payout structure is `calculatePayouts` of the pool and head count (what each standing holds is `ServerNew.ResultsOwnStandings`) |
| `ServerNew.ResultsOwnStandings` | server_new.js:239-250 | the rankings are the members' own standings reordered: each carries the member's name at its `indexOf` position and its `room.scores` entry or 0; so the winner is the name of the first-ranked member, whose score is its own score |
| `ServerNew.MemberStandingAt` | server_new.js:240-243 | the `k`th standing is the standing of the `k`th id |
| `ServerNew.TimeUpAnnouncesEnd` | server_new.js:494-515 | as written the handler never announces the end; after the last round it schedules a stray question; the corrected handler announces exactly when the game ended (F2) |
| `ServerNew.StoredUpdate` | server_new.js:162-218 | replacing a room by one of the same shape keeps the rooms invariant |
| `ServerNew.StoredReplace` | server_new.js:355-368 | storing a well-formed, balanced room under its own id keeps the rooms invariant |
| `ServerNew.GameManager.constructor` | server_new.js:89-117 | empty rooms and players; the puzzles come from the file, or the fallback list when it cannot be read |
| `ServerNew.GameManager.Authenticate` | server_new.js:412-422 | the socket is registered with a name, no room and the given account; nothing else changes |
| `ServerNew.GameManager.CreateRoom` | server_new.js:121-144 | the new room is stored under its id, replacing any room with that id, and the invariant is kept |
| `ServerNew.GameManager.OnCreateRoom` | server_new.js:425-442 | only a registered socket creates; it becomes host and its room is recorded; a new id is appended to the creation order, a replaced room keeps its place |
| `ServerNew.GameManager.JoinRoom` | server_new.js:146-160 | null with no change when the room is missing, not waiting or full; otherwise exactly the join of `Rooms.Joined` |
| `ServerNew.GameManager.OnJoinRoom` | server_new.js:445-461 | a registered socket joins under its own name and records the room; otherwise nothing changes |
| `ServerNew.GameManager.StartGame` | server_new.js:162-172 | null unless the room exists with two or more members; otherwise playing, round 1, answers cleared, whatever the earlier status |
| `ServerNew.GameManager.NameOf` | server_new.js:188 | the player's name, or `"Unknown"` |
| `ServerNew.GameManager.SubmitAnswer` | server_new.js:184-218 | null unless playing; otherwise the attempt is recorded as in `Rooms.Submitted`, and the reply reports correctness, the puzzle's points whenever correct, and the attempt count |
| `ServerNew.GameManager.EndGame` | server_new.js:233-263 | null with no room; otherwise the room is finished and the results are `Results` of it |
| `ServerNew.GameManager.EndRound` | server_new.js:220-231 | the round goes up by exactly one; the game ends exactly when the new round passes the total |
| `ServerNew.GameManager.OnTimeUpAsWritten` | server_new.js:494-515 | never announces the end; after the last round it schedules a question for the results object (as-written half of F2); a missing room changes nothing; otherwise the room's round goes up by one, with no status check, and after the last round the room is finished |
| `ServerNew.GameManager.OnTimeUp` | server_new.js:494-515 | the end is announced exactly when the round passes the total, with the results of the advanced room; otherwise the next question is scheduled (corrected half of F2); rooms change as in `OnTimeUpAsWritten` |
| `ServerNew.GameManager.StrayQuestion` | server_new.js:503-510 | a question scheduled on the results object has round `undefined` and draws a hard puzzle |
| `ServerNew.GameManager.DeliverQuestionAsWritten` | server_new.js:502-512 | installs the drawn puzzle and keeps the previous round's answers (as-written half of F3) |
| `ServerNew.GameManager.DeliverQuestion` | server_new.js:502-512 | installs the drawn puzzle and clears the round's answers (corrected half of F3) |
| `ServerNew.GameManager.GetAvailableRooms` | server_new.js:337-347 | the open rooms in creation order; every waiting, not-full room is listed |
| `ServerNew.GameManager.RemovePlayer` | server_new.js:355-381 | nothing happens for an unknown or roomless player; otherwise the player leaves with a refund as in `Rooms.Without` and is forgotten; a deleted room's id is spliced out of the creation order, which otherwise stays as it was |
| `ServerNew.GameManager.DeleteRoom` | server_new.js:375 | the room goes from the Map and its id is spliced out of the creation order; the other rooms keep their order |
| `ServerNew.JoinThenLeaveRefunds` | server_new.js:146-160 | joining and then leaving restores both the pool and the member list |
| `SocketServer.AccountOf` | server.js:779-782 | the account a payout goes to is the player's truthy user id, or none |
| `SocketServer.Receipts` | server.js:771-827 | every receipt is for a ranked position with a table amount of at least the minimum payout in cents, with that amount; positions strictly increase |
| `SocketServer.ReceiptsFollowRanking` | server.js:771-827 | each receipt is for the player ranked at its position; it is a credit exactly when that player has an account (`userId`), and the credit goes to that account |
| `SocketServer.ReceiptsComplete` | server.js:771-827 | every ranked position whose table amount is at least the minimum payout gets a receipt |
| `SocketServer.TotalPaidAppend` | server.js:811 | the total paid over two runs of receipts is the sum of the two totals |
| `SocketServer.CreditedBalance` | server.js:796-798 | crediting the receipts raises each account by exactly what the receipts pay it |
| `SocketServer.CreditedTwice` | server.js:796-798 | crediting the same receipts twice raises each account by twice what it is due |
| `SocketServer.PaidWithinTable` | server.js:771-827 | the credited total never exceeds the sum of the table entries from the first position on |
| `SocketServer.PaidWithinPlayerPot` | server.js:760-827 | the loop never credits more than the player pot |
| `SocketServer.TrackedUpdate` | server.js:529-571 | a change of the same shape keeps the rooms invariant |
| `SocketServer.TrackedCreate` | server.js:405-424 | storing a well-formed new room keeps the invariant |
| `SocketServer.TrackedJoin` | server.js:456-484 | a join by a non-member keeps the invariant and lists the newcomer exactly once |
| `SocketServer.KeptLeave` | server.js:665-676 | leaving keeps a stored room well formed |
| `SocketServer.TrackedLeave` | server.js:665-676 | leaving keeps the invariant |
| `SocketServer.TrackedDelete` | server.js:678 | deleting a room and its order entry keeps the invariant |
| `SocketServer.LeaveForfeits` | server.js:665-671 | leaving without a refund never changes the pool |
| `SocketServer.JoinThenDisconnectForfeits` | server.js:439-500 | after a join and a disconnect the pool keeps the fee and the member list is as before |
| `SocketServer.Ranked` | server.js:738-757 | every member with a score entry is ranked exactly once, and nobody else; the entries are non-increasing in their score, which is the member's `room.scores` entry (`SocketServer.RankedStandings`) |
| `SocketServer.RankedStandings` | server.js:738-757 | each ranked entry is the member's own standing: the member's name and the member's `room.scores` entry |
| `SocketServer.RankedWinnerIsTop` | server.js:738-757 | the first-ranked player has a score at least that of every member with a score entry |
| `SocketServer.Settlement` | server.js:732-838 | what `endGame` emits: with nobody ranked, a TypeError; otherwise the ranking, the top-ranked name as winner, the payout table, the loop's receipts and their total |
| `SocketServer.SettlementReadsStandings` | server.js:718-724 | advancing the round or finishing the room changes neither the receipts nor the settlement |
| `SocketServer.RoomOf` | server.js:661-662 | the room of a known socket with a truthy room id, else none |
| `SocketServer.Server.constructor` | server.js:64-89 | empty maps; the puzzles come from the file, or the fallback list when it cannot be read |
| `SocketServer.Server.AddBalance` | server.js:201-216 | the account gains exactly the amount, a missing account counting as 0; nothing else changes |
| `SocketServer.Server.DeductBalance` | server.js:218-241 | succeeds exactly when the balance covers the amount; on success the account loses exactly the amount, otherwise nothing changes |
| `SocketServer.Server.Connect` | server.js:324-333 | the socket is registered with a name, no room, score 0 and no account |
| `SocketServer.Server.SetUserId` | server.js:348-359 | a truthy id is attached to a known socket; otherwise nothing changes |
| `SocketServer.Server.CreateRoom` | server.js:375-436 | refused with no change for an unknown socket or too small a balance; otherwise the fee (default 10) in cents is debited, the new waiting room's pool equals the debit, and a new id is appended to the creation order |
| `SocketServer.Server.JoinRoom` | server.js:439-500 | refused, in this order and with no change, for a missing room, not waiting, full, already a member, or too small a balance; otherwise the balance drops by the fee in cents, the pool rises by the same, and the player is appended once with score 0 |
| `SocketServer.Server.StartRound` | server.js:691-716 | the answers are cleared and the drawn puzzle is installed; it throws the TypeError of reading `symbols` of `undefined` exactly when the catalogue has no puzzle of the round's tier |
| `SocketServer.Server.StartGame` | server.js:503-526 | refused with no change unless the caller hosts the room and it has two or more members; otherwise playing, round 1, and the first round started |
| `SocketServer.Server.SubmitAnswer` | server.js:529-620 | refused with no change unless playing with a puzzle; otherwise the attempt is recorded; the reply gives correctness, points when correct, the attempt count, and `isFirstCorrect` exactly when correct on the first attempt |
| `SocketServer.Server.OnTimeUp` | server.js:623-635 | a round end is scheduled exactly for an existing room that is playing |
| `SocketServer.Server.EndGameAsWritten` | server.js:732-760 | the room is finished, then building the table throws a ReferenceError on `totalPot` before any credit (as-written half of F1) |
| `SocketServer.Server.PayOut` | server.js:771-827 | the loop's receipts, the credited balances and the total paid are `Receipts`, `Credited` and `TotalPaid` of the ranking |
| `SocketServer.Server.PayWinners` | server.js:732-838 | the room is finished; the balances are credited by the receipts of the ranking; the result is `Settlement`: an empty ranking throws a TypeError, otherwise the winner is the top-ranked name (corrected half of F1) |
| `SocketServer.Server.EndGame` | server.js:732-838 | a room that is already finished is left alone and nobody is paid again; otherwise as `PayWinners` (corrected half of F1 and of F7) |
| `SocketServer.Server.EndRound` | server.js:718-730 | the round goes up by exactly one, with no status check; the game ends exactly when the new round passes the total, and is then settled as `EndGame` settles it, or left alone when already finished |
| `SocketServer.Server.EndRoundAsWritten` | server.js:718-730 | every call past the last round finishes the room and credits the receipts again, whatever the status |
| `SocketServer.Server.LastRoundEndedTwiceAsWritten` | server.js:710-730 | when the last round is ended twice, both calls settle the game and the receipts are credited twice (as-written half of F7) |
| `SocketServer.Server.LastRoundEndedTwice` | server.js:718-730 | with the intended `endGame`, the second end of the last round pays nobody, so the receipts are credited once (corrected half of F7) |
| `SocketServer.Server.GetRooms` | server.js:638-650 | the open rooms in creation order; every waiting, not-full room is listed |
| `SocketServer.Server.Disconnect` | server.js:658-688 | the player leaves the recorded room with no refund; an emptied room is deleted and its id spliced out of the creation order, which otherwise stays; the socket is removed from `players` except when its room was deleted, where the handler returns before removing it (server.js:678-679); balances never change |
| `SocketServer.Server.LeaveRoom` | server.js:663-681 | the room is deleted, with its id spliced out of the creation order, exactly when the leaver was its only member and host; otherwise it is the `Rooms.Without` room with no refund and the order stays |
| `SocketServer.Server.DeleteRoom` | server.js:678 | the room goes from the Map and its id is spliced out of the creation order; the other rooms keep their order |
| `SocketServer.Server.RemoveFinishedRoomAsWritten` | server.js:878-880 | the cleanup timer throws a ReferenceError, because `removeFinishedRoom` is not defined (as-written half of F5) |
| `SocketServer.Server.RemoveFinishedRoom` | server.js:877-880 | the finished room is removed from the Map and its id spliced out of the creation order, the others keeping their order (corrected half of F5) |
| `CardForms.Contribution` | payment-forms.js:295-302 | each digit contributes 0..9: the digit itself, or its double with 9 taken off when that exceeds 9 |
| `CardForms.Luhn` | payment-forms.js:291-304 | the Luhn sum of `n` digits lies in 0..9n |
| `CardForms.ValidateCreditCard` | payment-forms.js:287-307 | true exactly when the whitespace-stripped input is 13-19 digits whose Luhn sum, rightmost digit undoubled, is a multiple of 10 |
| `CardForms.LuhnAppend` | payment-forms.js:294-304 | the sum of a split number is the right part's sum plus the left part's, read with the doubling it has after the right part |
| `CardForms.CheckDigit` | payment-forms.js:291-306 | the check digit is a digit |
| `CardForms.CheckDigitMakesValid` | payment-forms.js:291-306 | every digit payload followed by its check digit passes the check |
| `CardForms.WhitespaceIrrelevant` | payment-forms.js:288 | whitespace anywhere in the input never changes the verdict |
| `CardForms.ContributionInjective` | payment-forms.js:297-300 | distinct digits contribute distinct amounts at the same position |
| `CardForms.LuhnSplice` | payment-forms.js:294-304 | a number's sum is the sum of its parts around one digit plus that digit's contribution |
| `CardForms.SingleDigitErrorDetected` | payment-forms.js:287-307 | two numbers that differ in exactly one digit never both pass |
| `CardForms.Groups` | payment-forms.js:312 | the chunks are non-empty, at most four long, and all but the last exactly four |
| `CardForms.GroupsConcat` | payment-forms.js:312 | the chunks concatenate back to the string |
| `CardForms.StripJoin` | payment-forms.js:313 | joining space-free chunks with spaces and stripping the spaces gives their concatenation |
| `CardForms.FormatCardNumberRoundTrip` | payment-forms.js:310-314 | removing the spaces from the formatted number gives the space-stripped input |
| `CardForms.FormatCardNumberIdempotent` | payment-forms.js:310-314 | formatting a formatted number changes nothing |
| `CardForms.FormatCardNumberShape` | payment-forms.js:310-314 | the output is the chunks of four of the stripped input, joined by single spaces |
| `CardForms.DigitsOnlyAppend` | payment-forms.js:318 | stripping non-digits distributes over concatenation |
| `CardForms.FormatExpiryDateShape` | payment-forms.js:317-323 | at most five characters; with two or more digits the slash sits at index 2 and the digits are the first four of the input's digits; otherwise the digit string itself |
| `CardForms.FormatExpiryDateIdempotent` | payment-forms.js:317-323 | formatting the formatted expiry changes nothing |
| `UserProfile.MissingOf` | user-profile.js:29 | a field is missing exactly when it is required and falsy |
| `UserProfile.ValidateProfile` | user-profile.js:28-35 | missing lists exactly the falsy required fields; valid exactly when nothing is missing; completeness is 10 times the filled count, in 0..100 |
| `UserProfile.MissingInOrder` | user-profile.js:29 | the missing fields keep the order of the required fields |
| `UserProfile.MissingEmptyIffAllFilled` | user-profile.js:29-31 | nothing is missing exactly when every field is filled |
| `UserProfile.CalculateAge` | user-profile.js:110-120 | the year difference, minus one exactly when today's month and day come before the birthday |
| `UserProfile.VerifyAge` | user-profile.js:86-96 | adult exactly when the date parses and the age is at least 18 |
| `UserProfile.AgeCountsBirthdays` | user-profile.js:110-120 | the `age`th birthday has come and the next one has not |
| `UserProfile.AgeIsLargest` | user-profile.js:110-120 | no later birthday has come than the one the age counts |
| `UserProfile.AdultIffEighteenthBirthday` | user-profile.js:86-96 | adult exactly when the eighteenth birthday has come |
| `UserProfile.FormatLocationPriority` | user-profile.js:123-132 | "city, state", else the city, else the country, else "Not provided"; never empty |
| `UserProfile.GetVerificationStatus` | user-profile.js:135-142 | email and phone mirror their fields; address needs address, city and state; age is the age check, and is never set when the date of birth is empty |
| `UserProfile.ProfileSteps` | user-profile.js:38-83 | five steps in the fixed order personal, verification, contact, payment, terms |
| `UserProfile.CurrentStep` | user-profile.js:147 | the first incomplete step, or the last one when all are complete |
| `UserProfile.FirstIncomplete` | user-profile.js:147 | from a complete prefix, the first incomplete step, or the last |
| `UserProfile.StepsCoverRequiredFields` | user-profile.js:38-83 | the personal and contact steps are complete with a date of birth given exactly when every required field is filled; the personal, verification and contact steps are all complete exactly when every required field is filled and the person is adult |
| `LegalCompliance.IsLocationLegal` | legal-compliance.js:40-72 | a failed lookup is legal at US/CA/San Francisco; otherwise legal exactly when the country is allowed and it is not a US restricted state; the reason is present exactly when illegal |
| `LegalCompliance.CountryDecidesFirst` | legal-compliance.js:51-57 | a country outside the list gives the country reason, whatever the state |
| `LegalCompliance.StatesOnlyMatterInTheUS` | legal-compliance.js:60 | in another allowed country every state is legal |
| `LegalCompliance.RestrictedUSState` | legal-compliance.js:60-66 | in the US, the state reason is given exactly for a restricted state, and the country reason never |
| `LegalCompliance.FailOpen` | legal-compliance.js:42-48 | a failed lookup lets the user in, placed in the US |
| `LegalCompliance.VerifyAgeAsWritten` | legal-compliance.js:75-90 | throws the TypeError of assigning to a constant exactly when this year's birthday is still ahead (as-written half of F6) |
| `LegalCompliance.VerifyAge` | legal-compliance.js:75-90 | valid exactly when the age is at least 18; the age is the calendar age, absent for an unparsable date (corrected half of F6) |
| `LegalCompliance.VerifyAgeFinding` | legal-compliance.js:81-83 | the corrected check agrees with the profile's age check, and with the written one wherever that returns; an adult of 30 whose birthday is next month gets an exception |
| `LegalCompliance.Middleware` | legal-compliance.js:108-128 | forbidden exactly when the path is checked and the location is illegal; a skipped path goes on untouched; a forbidden answer carries the looked-up location and the reason `isLocationLegal` gave; a checked request that goes on has `userLocation` set to the looked-up location, or to the default location when the lookup failed |
| `LegalCompliance.ExemptPrefixes` | legal-compliance.js:112 | every path under `/api/` or `/static/` skips the check |

## Left out

- Express, Socket.IO, helmet, CORS and rate limiting: transport. Handlers return a result or a refusal instead of emitting events. Broadcasts and `socket.join`/`leave` are not modelled.
- Stripe payment endpoints (server.js:130-192): calls into an external processor.
- The `user-balance` GET (server.js:195-199): it reads `Balance` and divides by 100 for display.
- `register_player` (server.js:335-346) and `ping` (server.js:653-655): a display-name update and a keep-alive with no game logic.
- The geolocation HTTP call `getUserLocation` (legal-compliance.js:19-37): its answer is the `lookup` parameter.
- The middleware's catch path (legal-compliance.js:129-133): it is reached only when the code inside the `try` throws, and it calls `next()` without setting `userLocation`. Nothing the model covers throws there.
- Timers: the delays themselves are not modelled. Each timer callback is a method that the environment may call; `server.js` timers firing on a room that was already deleted are not modelled.
- Randomness: the puzzle index and the generated player names are parameters.
- Reading and parsing `rebus-puzzles.json`: whether the read succeeded is the constructor's `file` parameter.
- `new Date()`: today is a parameter. Date-string parsing and time zones are left out; an unparsable date is `None`.
- Leaderboard and game-history statistics (server.js:840-872, server_new.js:305-335, 349-353): floating-point averages and rates, with no bearing on rooms or money.
- `toFixed` formatting of amounts, and floating-point rounding in the payout tables: amounts are exact reals.
- `formatUserData` (user-profile.js:99-107): display assembly of fields covered elsewhere.
- The HTML generators of payment-forms.js and user-profile.js, `getLegalDisclaimer` and `getSavedPaymentMethods`: UI text.
- `resetRoomForNextGame` (server.js:883-904): nothing calls it.
- server_new.js `leave_room` and `disconnect` handlers (528-556): both only call `removePlayer`, which is `ServerNew.GameManager.RemovePlayer`.
- SocketServer.Server.JoinRoom: requires a registered socket. For an unknown socket, server.js:464 and server.js:547 would throw reading `userId` or `name` of `undefined`; that crash is not modelled.
- SocketServer.Server.SubmitAnswer: requires a registered socket, for the same reason (server.js:547).
- SocketServer.Server.EndGame: the order in which `Object.keys(room.scores)` enumerates the keys is the `keys` parameter. It must list every score key exactly once (`Rooms.ScoreKeys`), but JavaScript's integer-like-keys-first ordering is not reproduced.
- The engine's sort algorithm is not modelled: `Ranking.SortByScore` is an insertion sort. Both sorts are stable, so they give the same result (`Ranking.SortIsStable`).
- ServerNew.GameManager.constructor: the catalogue is built with the corrected loader, so an entry without a difficulty is worth 10 points where server_new.js:97-98 makes it 20 (finding F4). `Puzzles.LoadAsWrittenMisprices` exhibits the written price.
- SocketServer.Server.constructor: the same, against server.js:77-78.
- Puzzles.LoadAll: maps the corrected `Puzzles.Load`, not the written loader, for the same reason.
- JsText.ToLower: case mapping beyond Latin-1 is not modelled. Greek, Cyrillic and the other scripts' capitals are kept as they are, and "İ", which `toLowerCase` turns into two code units, is kept as one character.
- SocketServer.Server.CreateRoom: the fee is a whole number of dollars. A fractional fee such as 2.5, which `(data.entryFee || 10) * 100` at server.js:386 and 409 accepts, is not modelled.
- ServerNew.GameManager.CreateRoom: the fee is a whole number of dollars. server_new.js:125-126 stores `roomData.entryFee` as given, so a fractional fee is kept as a fraction; that is not modelled.
- ServerNew.GameManager.OnCreateRoom: takes the fee as an `int`. server_new.js:432 passes `data.entryFee` on with no `|| 10` default, so a request without a fee gives the room an undefined fee and a NaN prize pool; that request is not modelled.
- CardForms.Groups: it counts Dafny characters, while `/.{1,4}/g` at payment-forms.js:312 counts UTF-16 code units. The two split differently only around characters outside the Basic Multilingual Plane.
- A `Threw` result of `SocketServer.Server.EndGameAsWritten`, `StartRound` or `RemoveFinishedRoomAsWritten` stands for an exception in a timer callback. `server.js` installs no `uncaughtException` handler, so the Node process exits there, and every room and the in-memory `userBalances` are lost. The model's server instead goes on with the state it had reached.

## Findings

Each row opens its "as written" cell with the finding's id (F1 to F7); the rest of this document refers to the findings by these ids.

| source | as written | input that shows it | evidently intended | confidence | as-written member | corrected member |
|---|---|---|---|---|---|---|
| server.js:296-307 | **F1.** the returned object reads the undeclared `totalPot` and `entryFee`, so `calculateTournamentPayouts` throws a ReferenceError and `endGame` stops before any credit; the exception is uncaught inside a timer callback, so the server process exits and every room and every balance in `userBalances` is lost | any finished room, for example two players in a $10 room | `totalPot` is the prize pool and the fee is the room's, so the loop credits the winners | not executed | `SocketServer.Server.EndGameAsWritten` | `SocketServer.Server.PayWinners` |
| server_new.js:494-515 | **F2.** `endRound` returns the results object after the last round; `room.currentRound > room.totalRounds` compares `undefined`, so `game_ended` is never sent and a question for round `undefined` is scheduled | a `time_up` in round 5 of a playing room | announce the results `endRound` produced | not executed | `ServerNew.GameManager.OnTimeUpAsWritten` | `ServerNew.GameManager.OnTimeUp` |
| server_new.js:502-512 | **F3.** the next round's puzzle is installed without clearing `room.answers`, so a player who was right in the previous round cannot score again | a player answers round 1 correctly, then answers round 2 correctly | clear the answers each round, as `startRound` of server.js does at 694 | not executed | `ServerNew.GameManager.DeliverQuestionAsWritten` | `ServerNew.GameManager.DeliverQuestion` |
| server.js:77-78, server_new.js:97-98 | **F4.** the points are chosen from the raw difficulty, so an entry without a difficulty is filed as easy but worth 20 points | `{symbols: "x", answer: "a"}` with no difficulty | 10 points, the easy price | not executed | `Puzzles.LoadAsWrittenMisprices` | `Puzzles.Load` |
| server.js:879 | **F5.** as written the timer is never set, because `endGame` has already thrown (the first finding); once that is corrected, the cleanup timer calls `removeFinishedRoom`, which is not defined, so it throws and, uncaught, ends the process, and the finished room is never deleted | any finished game with the payout table corrected, 10 seconds later | delete the room from `rooms` | not executed | `SocketServer.Server.RemoveFinishedRoomAsWritten` | `SocketServer.Server.RemoveFinishedRoom` |
| legal-compliance.js:82 | **F6.** `age--` on a `const` throws a TypeError whenever this year's birthday is still ahead | born 1 November 31 years before a 14 October today | decrement a mutable age and answer valid | not executed | `LegalCompliance.VerifyAgeAsWritten` | `LegalCompliance.VerifyAge` |
| server.js:718-730 | **F7.** `endRound` has no status check, so the last round can be ended twice: the round timer (710-714) ends it, and a `time_up` that a client sent while the round was still playing (623-635) ends it again 3 seconds after it arrived; `endGame` runs twice and, once the payout table is corrected, credits every winner twice | a `time_up` sent in the last second of round 5 | a game is settled once: `endGame` leaves a room that is already finished alone | not executed | `SocketServer.Server.LastRoundEndedTwiceAsWritten` | `SocketServer.Server.LastRoundEndedTwice` |
