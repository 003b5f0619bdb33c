// Puzzle records as the two servers hold them after loading the puzzle file,
// the accepted-spelling list built for each answer, the difficulty tier of a
// round, and the answer check both servers apply.

module Puzzles {
  import opened Common
  import opened JsText

  /** A loaded puzzle: `answer` and every entry of `alternatives` are lower-case. */
  datatype Puzzle = Puzzle(symbols: string, answer: string, alternatives: seq<string>,
                           difficulty: string, points: int)

  /** One entry of the puzzle file before loading; `difficulty` may be absent. */
  datatype RawPuzzle = RawPuzzle(symbols: string, answer: string, difficulty: Option<string>)

  /** Points per tier: easy 10, medium 15, anything else 20. */
  function TierPoints(difficulty: string): int {
    if difficulty == "easy" then 10 else if difficulty == "medium" then 15 else 20
  }

  /** `puzzle.difficulty || 'easy'`: an absent or empty difficulty defaults to easy. */
  function DefaultedDifficulty(d: Option<string>): (r: string)
    ensures d.Some? && d.value != "" ==> r == d.value
    ensures d.None? || d.value == "" ==> r == "easy"
  {
    match d
    case None => "easy"
    case Some(s) => if s == "" then "easy" else s
  }

  /** The accepted spellings: the lower-cased answer, the same with all whitespace removed,
      and the same with each whitespace run replaced by a hyphen. */
  function Alternatives(answer: string): (alts: seq<string>)
    ensures |alts| == 3
  {
    var lower := ToLower(answer);
    [lower, RemoveSpaces(lower), ReplaceSpaceRuns(lower, '-')]
  }

  /** Loading one entry exactly as written: the points are chosen from the RAW difficulty,
      while the stored difficulty is the defaulted one. */
  function LoadAsWritten(raw: RawPuzzle): Puzzle {
    Puzzle(raw.symbols, ToLower(raw.answer), Alternatives(raw.answer),
           DefaultedDifficulty(raw.difficulty),
           if raw.difficulty == Some("easy") then 10
           else if raw.difficulty == Some("medium") then 15 else 20)
  }

  /** Loading one entry with the points taken from the stored (defaulted) difficulty. */
  function Load(raw: RawPuzzle): (p: Puzzle)
    ensures p.difficulty == DefaultedDifficulty(raw.difficulty)
    ensures p.points == TierPoints(p.difficulty)
    ensures p.answer == ToLower(raw.answer) && p.alternatives == Alternatives(raw.answer)
  {
    var d := DefaultedDifficulty(raw.difficulty);
    Puzzle(raw.symbols, ToLower(raw.answer), Alternatives(raw.answer), d, TierPoints(d))
  }

  /** The written loader prices an entry without a difficulty as hard although it files it as easy. */
  lemma LoadAsWrittenMisprices(symbols: string, answer: string)
    ensures LoadAsWritten(RawPuzzle(symbols, answer, None)).difficulty == "easy"
    ensures LoadAsWritten(RawPuzzle(symbols, answer, None)).points == 20
    ensures Load(RawPuzzle(symbols, answer, None)).points == 10
  {
  }

  /** The written loader and the corrected one agree whenever the entry names its difficulty. */
  lemma LoadAgreesWhenDifficultyGiven(raw: RawPuzzle)
    requires raw.difficulty.Some? && raw.difficulty.value != ""
    ensures LoadAsWritten(raw) == Load(raw)
  {
  }

  function LoadAll(raws: seq<RawPuzzle>): (ps: seq<Puzzle>)
    ensures |ps| == |raws|
    ensures forall i :: 0 <= i < |raws| ==> ps[i] == Load(raws[i])
  {
    if raws == [] then [] else [Load(raws[0])] + LoadAll(raws[1..])
  }

  /** `currentPuzzle.alternatives.includes(answer.toLowerCase())`. */
  predicate IsCorrect(p: Puzzle, answer: string) {
    ToLower(answer) in p.alternatives
  }

  // ---- the difficulty tier of a round ----

  /** `round <= 2` easy, `round <= 4` medium, otherwise hard; an undefined round compares
      false with both bounds and therefore lands on hard. */
  function DifficultyForRound(round: Option<int>): (d: string)
    ensures round.Some? && round.value <= 2 ==> d == "easy"
    ensures round.Some? && 2 < round.value <= 4 ==> d == "medium"
    ensures round.None? || round.value > 4 ==> d == "hard"
  {
    match round
    case None => "hard"
    case Some(r) => if r <= 2 then "easy" else if r <= 4 then "medium" else "hard"
  }

  /** `puzzles.filter(p => p.difficulty === tier)`. */
  function FilterDifficulty(puzzles: seq<Puzzle>, d: string): (r: seq<Puzzle>)
    ensures |r| <= |puzzles|
    ensures forall p :: p in r <==> p in puzzles && p.difficulty == d
  {
    if puzzles == [] then []
    else if puzzles[0].difficulty == d then [puzzles[0]] + FilterDifficulty(puzzles[1..], d)
    else FilterDifficulty(puzzles[1..], d)
  }

  /** `getPuzzlesByDifficulty(round)` / `getPuzzleByDifficulty(round)`. */
  function PuzzlesByDifficulty(puzzles: seq<Puzzle>, round: Option<int>): seq<Puzzle> {
    FilterDifficulty(puzzles, DifficultyForRound(round))
  }

  /** `list[Math.floor(Math.random() * list.length)]`, with the random draw as `choice`: the
      index is `choice % |list|`, so every draw lands inside a non-empty list, and an empty
      list reads `list[0]`, which is `undefined`. */
  function Pick(puzzles: seq<Puzzle>, choice: nat): (p: Option<Puzzle>)
    ensures p.Some? <==> puzzles != []
    ensures p.Some? ==> p.value in puzzles
  {
    if puzzles != [] then Some(puzzles[choice % |puzzles|]) else None
  }

  /** Every entry of the list is the outcome of some draw. */
  lemma EveryPuzzleDrawable(puzzles: seq<Puzzle>, i: nat)
    requires i < |puzzles|
    ensures Pick(puzzles, i) == Some(puzzles[i])
  {
  }

  /** The puzzle drawn for a round from a catalogue: undefined exactly when the catalogue has
      no puzzle of the round's tier, and otherwise one of the catalogue's puzzles of that tier. */
  function Draw(puzzles: seq<Puzzle>, round: Option<int>, choice: nat): (p: Option<Puzzle>)
    ensures p.None? <==> forall q :: q in puzzles ==> q.difficulty != DifficultyForRound(round)
    ensures p.Some? ==> p.value in puzzles && p.value.difficulty == DifficultyForRound(round)
  {
    var tier := PuzzlesByDifficulty(puzzles, round);
    assert tier != [] ==> tier[0] in tier;
    Pick(tier, choice)
  }

  /** Rounds 1-2 draw easy puzzles, 3-4 medium, 5 and past it hard; every puzzle drawn for
      a round has that round's tier. */
  lemma TierOfRound(puzzles: seq<Puzzle>, round: int, choice: nat)
    requires Pick(PuzzlesByDifficulty(puzzles, Some(round)), choice).Some?
    ensures var p := Pick(PuzzlesByDifficulty(puzzles, Some(round)), choice).value;
            p in puzzles &&
            p.difficulty == (if round <= 2 then "easy" else if round <= 4 then "medium" else "hard")
  {
  }

  // ---- the fallback catalogues used when the puzzle file cannot be read ----

  function FallbackServer(): seq<Puzzle> {
    [ Puzzle("🎵 + 🏠", "music house", ["musichouse", "music house", "house music"], "easy", 10),
      Puzzle("☀️ + 🌊", "sun water", ["sunwater", "sun water", "solar water"], "easy", 10),
      Puzzle("🚗 + 🏠", "car house", ["carhouse", "car house", "garage"], "easy", 10) ]
  }

  function FallbackServerNew(): seq<Puzzle> {
    [ Puzzle("🎵 + 🏠", "music house", ["musichouse", "music house"], "easy", 10),
      Puzzle("☀️ + 🌊", "sun water", ["sunwater", "sun water"], "easy", 10),
      Puzzle("🚗 + 🏠", "car house", ["carhouse", "car house", "garage"], "easy", 10) ]
  }

  /** The catalogue a server starts with: the loaded file, or its fallback list when
      reading or parsing the file failed (`None`). */
  function Catalogue(file: Option<seq<RawPuzzle>>, fallback: seq<Puzzle>): seq<Puzzle> {
    match file
    case Some(raws) => LoadAll(raws)
    case None => fallback
  }

  // ---- properties of the answer check ----

  lemma {:induction false} ToLowerIdempotent(s: string)
    ensures ToLower(ToLower(s)) == ToLower(s)
  {
    assert forall i :: 0 <= i < |s| ==> LowerChar(LowerChar(s[i])) == LowerChar(s[i]);
  }

  /** The check ignores letter case in the submission. */
  lemma IsCorrectIgnoresCase(p: Puzzle, answer: string)
    ensures IsCorrect(p, answer) == IsCorrect(p, ToLower(answer))
  {
    ToLowerIdempotent(answer);
  }

  /** For a loaded puzzle, a submission is accepted exactly when, lower-cased, it is the
      lower-cased answer, that answer without whitespace, or that answer with hyphens for
      whitespace runs. */
  lemma AcceptedSpellings(raw: RawPuzzle, submitted: string)
    ensures var lower := ToLower(raw.answer);
            IsCorrect(Load(raw), submitted) <==>
              (ToLower(submitted) == lower || ToLower(submitted) == RemoveSpaces(lower) ||
               ToLower(submitted) == ReplaceSpaceRuns(lower, '-'))
  {
  }

  /** Any capitalisation of the answer itself is accepted. */
  lemma AnswerInAnyCaseAccepted(raw: RawPuzzle, submitted: string)
    requires ToLower(submitted) == ToLower(raw.answer)
    ensures IsCorrect(Load(raw), submitted)
  {
  }

  lemma ToLowerAppend(a: string, b: string)
    ensures ToLower(a + b) == ToLower(a) + ToLower(b)
  {
    var l := ToLower(a + b);
    var m := ToLower(a) + ToLower(b);
    forall i | 0 <= i < |a + b| ensures l[i] == m[i] {
      if i < |a| {
        assert (a + b)[i] == a[i];
      } else {
        assert (a + b)[i] == b[i - |a|];
      }
    }
    assert |l| == |m|;
  }

  lemma ToLowerJoin(a: string, c: char, b: string)
    requires !IsUpperLatin(c)
    ensures ToLower(a + [c] + b) == ToLower(a) + [c] + ToLower(b)
  {
    ToLowerAppend(a + [c], b);
    ToLowerAppend(a, [c]);
    assert ToLower([c]) == [c];
  }

  /** A two-word answer such as "music house": a submission is accepted when, lower-cased,
      it is the two lower-case words with one whitespace character, glued together
      ("musichouse") or joined by a hyphen ("music-house"); so "MUSIC HOUSE" is accepted too. */
  lemma TwoWordAnswerSpellings(raw: RawPuzzle, w1: string, c: char, w2: string, submitted: string)
    requires raw.answer == w1 + [c] + w2 && IsSpace(c)
    requires !HasSpace(w1) && !HasSpace(w2) && ToLower(w1) == w1 && ToLower(w2) == w2
    requires ToLower(submitted) in [w1 + [c] + w2, w1 + w2, w1 + ['-'] + w2]
    ensures IsCorrect(Load(raw), submitted)
  {
    assert !IsUpperLatin(c);
    ToLowerJoin(w1, c, w2);
    TwoWordSpellings(w1, c, w2, '-');
  }
}
