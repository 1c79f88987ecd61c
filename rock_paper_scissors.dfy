/** Day 2 of 2022, Rock Paper Scissors: each line names the opponent's
    shape and either our shape (part one) or the outcome we must reach
    (part two); the answer is our total score. */
module RockPaperScissors {
  import opened Wrappers
  import opened Strings

  datatype Hand = Rock | Paper | Scissors

  datatype Outcome = Lose | Draw | Win

  datatype EnumParseError = InvalidCharacter | TooManyCharacters | EmptyString

  /** `Hand::value`: the score of the shape itself. */
  function Value(h: Hand): (v: nat)
    ensures 1 <= v <= 3
  {
    match h
    case Rock => 1
    case Paper => 2
    case Scissors => 3
  }

  /** Each shape is worth a different number of points. */
  lemma ValueInjective(a: Hand, b: Hand)
    ensures Value(a) == Value(b) <==> a == b
  {
  }

  /** The game's rule, stated on the shapes' values: `a` beats `b` when its
      value is one more than `b`'s, counting round from 3 back to 1. */
  predicate Beats(a: Hand, b: Hand)
  {
    Value(a) == Value(b) % 3 + 1
  }

  /** Exactly one of: `a` beats `b`, `b` beats `a`, or they are equal. */
  lemma BeatsTrichotomy(a: Hand, b: Hand)
    ensures (Beats(a, b) && !Beats(b, a) && a != b)
         || (Beats(b, a) && !Beats(a, b) && a != b)
         || (a == b && !Beats(a, b) && !Beats(b, a))
  {
  }

  // ---------------------------------------------------------------
  // Parsing

  /** `Hand::from_str`: one letter, A or X for rock, B or Y for paper, C or
      Z for scissors. */
  function HandFromStr(s: string): (r: Result<Hand, EnumParseError>)
    ensures r == Err(TooManyCharacters) <==> |s| > 1
    ensures r == Err(EmptyString) <==> |s| == 0
    ensures r.Ok? <==> |s| == 1 && s[0] in "ABCXYZ"
  {
    if |s| > 1 then Err(TooManyCharacters)
    else if |s| == 0 then Err(EmptyString)
    else match s[0]
      case 'X' => Ok(Rock)
      case 'A' => Ok(Rock)
      case 'Y' => Ok(Paper)
      case 'B' => Ok(Paper)
      case 'Z' => Ok(Scissors)
      case 'C' => Ok(Scissors)
      case _ => Err(InvalidCharacter)
  }

  /** The opponent's letter and our letter for each shape. */
  function TheirLetter(h: Hand): char
  {
    match h
    case Rock => 'A'
    case Paper => 'B'
    case Scissors => 'C'
  }

  function OurLetter(h: Hand): char
  {
    match h
    case Rock => 'X'
    case Paper => 'Y'
    case Scissors => 'Z'
  }

  /** Both letters of a shape read back as that shape. */
  lemma HandLettersRoundTrip(h: Hand)
    ensures HandFromStr([TheirLetter(h)]) == Ok(h)
    ensures HandFromStr([OurLetter(h)]) == Ok(h)
  {
  }

  /** `Outcome::from_str`: X to lose, Y to draw, Z to win. */
  function OutcomeFromStr(s: string): (r: Result<Outcome, EnumParseError>)
    ensures r == Err(TooManyCharacters) <==> |s| > 1
    ensures r == Err(EmptyString) <==> |s| == 0
    ensures r.Ok? <==> |s| == 1 && s[0] in "XYZ"
  {
    if |s| > 1 then Err(TooManyCharacters)
    else if |s| == 0 then Err(EmptyString)
    else match s[0]
      case 'X' => Ok(Lose)
      case 'Y' => Ok(Draw)
      case 'Z' => Ok(Win)
      case _ => Err(InvalidCharacter)
  }

  function OutcomeLetter(o: Outcome): char
  {
    match o
    case Lose => 'X'
    case Draw => 'Y'
    case Win => 'Z'
  }

  /** Each outcome's letter reads back as that outcome. */
  lemma OutcomeLetterRoundTrip(o: Outcome)
    ensures OutcomeFromStr([OutcomeLetter(o)]) == Ok(o)
  {
  }

  /** `parse_game_line`: the text before the first space is the opponent's
      shape and the text after it is read by `parse`; a line with no space
      is an `EmptyString` error. */
  function ParseGameLine<T>(line: string, parse: string -> Result<T, EnumParseError>): (r: Result<(Hand, T), EnumParseError>)
    ensures SplitOnce(line, " ").None? ==> r == Err(EmptyString)
  {
    match SplitOnce(line, " ")
    case None => Err(EmptyString)
    case Some((a, b)) =>
      match HandFromStr(a)
      case Err(e) => Err(e)
      case Ok(h) =>
        match parse(b)
        case Err(e) => Err(e)
        case Ok(t) => Ok((h, t))
  }

  /** A parsed line is the opponent's letter, a space, and text `parse`
      accepts. */
  lemma GameLineMeaning<T>(line: string, parse: string -> Result<T, EnumParseError>)
    requires ParseGameLine(line, parse).Ok?
    ensures var g := ParseGameLine(line, parse).value;
      exists a, b :: line == a + " " + b && HandFromStr(a) == Ok(g.0) && parse(b) == Ok(g.1)
  {
    var (a, b) := SplitOnce(line, " ").value;
    assert line == a + " " + b;
  }

  /** `parse_input`: every line parsed, or the error of the first line that
      fails (`collect` into a `Result` stops there). */
  function ParseInput<T>(lines: seq<string>, parse: string -> Result<T, EnumParseError>): (r: Result<seq<(Hand, T)>, EnumParseError>)
    ensures r.Ok? ==> |r.value| == |lines|
    ensures r.Ok? ==> forall i :: 0 <= i < |lines| ==> ParseGameLine(lines[i], parse) == Ok(r.value[i])
    decreases |lines|
  {
    if |lines| == 0 then Ok([])
    else
      match ParseGameLine(lines[0], parse)
      case Err(e) => Err(e)
      case Ok(g) =>
        match ParseInput(lines[1..], parse)
        case Err(e) => Err(e)
        case Ok(gs) =>
          assert forall i :: 1 <= i < |lines| ==> lines[i] == lines[1..][i - 1];
          Ok([g] + gs)
  }

  /** A failed parse reports the error of the first line that fails. */
  lemma {:induction false} ParseInputFirstError<T>(lines: seq<string>, parse: string -> Result<T, EnumParseError>)
    requires ParseInput(lines, parse).Err?
    ensures exists i :: 0 <= i < |lines| && ParseGameLine(lines[i], parse) == Err(ParseInput(lines, parse).error)
                        && (forall k :: 0 <= k < i ==> ParseGameLine(lines[k], parse).Ok?)
    decreases |lines|
  {
    if ParseGameLine(lines[0], parse).Err? {
      assert ParseGameLine(lines[0], parse) == Err(ParseInput(lines, parse).error);
    } else {
      ParseInputFirstError(lines[1..], parse);
      var i :| 0 <= i < |lines| - 1 && ParseGameLine(lines[1..][i], parse) == Err(ParseInput(lines[1..], parse).error)
        && (forall k :: 0 <= k < i ==> ParseGameLine(lines[1..][k], parse).Ok?);
      assert ParseGameLine(lines[i + 1], parse) == Err(ParseInput(lines, parse).error);
      forall k | 1 <= k < i + 1 ensures ParseGameLine(lines[k], parse).Ok? {
        assert lines[k] == lines[1..][k - 1];
      }
    }
  }

  // ---------------------------------------------------------------
  // Scoring

  /** `score_game`: both players score their shape's value; a win adds 6
      to the winner and a draw 3 to each. */
  function ScoreGame(game: (Hand, Hand)): (scores: (nat, nat))
  {
    var p1, p2 := Value(game.0), Value(game.1);
    if game == (Rock, Paper) || game == (Paper, Scissors) || game == (Scissors, Rock) then (p1, p2 + 6)
    else if game.0 == game.1 then (p1 + 3, p2 + 3)
    else (p1 + 6, p2)
  }

  /** The outcome for the second player of `theirs` against `ours`. */
  function OutcomeOf(theirs: Hand, ours: Hand): Outcome
  {
    if Beats(ours, theirs) then Win else if ours == theirs then Draw else Lose
  }

  /** The points an outcome is worth. */
  function OutcomePoints(o: Outcome): nat
  {
    match o
    case Lose => 0
    case Draw => 3
    case Win => 6
  }

  /** `score_game` follows the game's rule: each player scores their shape
      plus what their outcome is worth, and the two scores always add up
      to the shapes' values plus 6. */
  lemma ScoreGameByRule(theirs: Hand, ours: Hand)
    ensures ScoreGame((theirs, ours)).1 == Value(ours) + OutcomePoints(OutcomeOf(theirs, ours))
    ensures ScoreGame((theirs, ours)).0 == Value(theirs) + OutcomePoints(OutcomeOf(ours, theirs))
    ensures ScoreGame((theirs, ours)).0 + ScoreGame((theirs, ours)).1 == Value(theirs) + Value(ours) + 6
  {
  }

  /** Swapping the players swaps the scores. */
  lemma ScoreGameSymmetric(a: Hand, b: Hand)
    ensures ScoreGame((a, b)).0 == ScoreGame((b, a)).1
  {
  }

  /** The second player's score is between 1 (lost with rock) and 9 (won
      with scissors). */
  lemma ScoreBounds(a: Hand, b: Hand)
    ensures 1 <= ScoreGame((a, b)).1 <= 9
  {
  }

  /** The shape that gets the outcome `o` against `theirs`. */
  function ShapeFor(theirs: Hand, o: Outcome): (ours: Hand)
    ensures OutcomeOf(theirs, ours) == o
  {
    match o
    case Draw => theirs
    case Win => if theirs == Rock then Paper else if theirs == Paper then Scissors else Rock
    case Lose => if theirs == Rock then Scissors else if theirs == Paper then Rock else Paper
  }

  /** Only one shape reaches a given outcome. */
  lemma ShapeForUnique(theirs: Hand, ours: Hand)
    ensures ShapeFor(theirs, OutcomeOf(theirs, ours)) == ours
  {
  }

  /** `rig_game`: the scores of a game in which we play for outcome `o`. */
  function RigGame(game: (Hand, Outcome)): (scores: (nat, nat))
  {
    var p1 := Value(game.0);
    match game.1
    case Lose =>
      (p1 + 6, match game.0 case Rock => Value(Scissors) case Paper => Value(Rock) case Scissors => Value(Paper))
    case Draw => (p1 + 3, 3 + Value(game.0))
    case Win =>
      (p1, 6 + match game.0 case Rock => Value(Paper) case Paper => Value(Scissors) case Scissors => Value(Rock))
  }

  /** Rigging a game scores exactly like playing the shape that reaches the
      wanted outcome. */
  lemma RigGameIsScoreGame(theirs: Hand, o: Outcome)
    ensures RigGame((theirs, o)) == ScoreGame((theirs, ShapeFor(theirs, o)))
  {
  }

  function SumScores(games: seq<(Hand, Hand)>): nat
    decreases |games|
  {
    if |games| == 0 then 0 else ScoreGame(games[0]).1 + SumScores(games[1..])
  }

  function SumRigged(games: seq<(Hand, Outcome)>): nat
    decreases |games|
  {
    if |games| == 0 then 0 else RigGame(games[0]).1 + SumRigged(games[1..])
  }

  /** `part_one`: our total score reading the second column as our shape;
      `None` where the source's `expect` panics. */
  function PartOne(input: string): (r: Option<nat>)
    ensures r.Some? <==> ParseInput(Lines(input), HandFromStr).Ok?
    ensures r.Some? ==> |Lines(input)| <= r.value <= 9 * |Lines(input)|
  {
    match ParseInput(Lines(input), HandFromStr)
    case Err(_) => None
    case Ok(games) =>
      ScoresBounded(games);
      Some(SumScores(games))
  }

  lemma {:induction false} ScoresBounded(games: seq<(Hand, Hand)>)
    ensures |games| <= SumScores(games) <= 9 * |games|
    decreases |games|
  {
    if |games| > 0 {
      ScoreBounds(games[0].0, games[0].1);
      ScoresBounded(games[1..]);
    }
  }

  /** `part_two`: our total score reading the second column as the outcome
      to reach. */
  function PartTwo(input: string): (r: Option<nat>)
    ensures r.Some? <==> ParseInput(Lines(input), OutcomeFromStr).Ok?
  {
    match ParseInput(Lines(input), OutcomeFromStr)
    case Err(_) => None
    case Ok(games) => Some(SumRigged(games))
  }

  /** Part two's total is part one's total for the shapes that reach the
      wanted outcomes. */
  lemma {:induction false} RiggedIsScored(games: seq<(Hand, Outcome)>)
    ensures SumRigged(games) == SumScores(seq(|games|, i requires 0 <= i < |games| => (games[i].0, ShapeFor(games[i].0, games[i].1))))
    decreases |games|
  {
    if |games| > 0 {
      RigGameIsScoreGame(games[0].0, games[0].1);
      RiggedIsScored(games[1..]);
      var played := seq(|games|, i requires 0 <= i < |games| => (games[i].0, ShapeFor(games[i].0, games[i].1)));
      assert played[1..] == seq(|games| - 1, i requires 0 <= i < |games| - 1 => (games[1..][i].0, ShapeFor(games[1..][i].0, games[1..][i].1)));
    }
  }

  // ---------------------------------------------------------------
  // The source's sample

  const SampleLines: seq<string> := ["A Y", "B X", "C Z"]
  const Sample := Join(SampleLines, "\n")

  lemma SampleLinesRead()
    ensures Lines(Sample) == SampleLines
  {
    LinesOfJoin(SampleLines);
  }

  /** A line of two letters around a space splits into the two letters. */
  lemma SplitAtSpace(line: string)
    requires |line| == 3 && line[0] != ' ' && line[1] == ' '
    ensures SplitOnce(line, " ") == Some(([line[0]], [line[2]]))
  {
    SplitOnSep([line[0]], " ", [line[2]]);
    assert line == [line[0]] + " " + [line[2]];
  }

  /** The sample's lines, letter by letter. */
  predicate SampleText(ls: seq<string>)
  {
    |ls| == 3 && (forall i :: 0 <= i < 3 ==> |ls[i]| == 3 && ls[i][1] == ' ')
    && ls[0][0] == 'A' && ls[0][2] == 'Y' && ls[1][0] == 'B' && ls[1][2] == 'X'
    && ls[2][0] == 'C' && ls[2][2] == 'Z'
  }

  /** A line of two letters around a space reads as the pair the two
      letters name. */
  lemma GameLineOfLetters<T>(line: string, parse: string -> Result<T, EnumParseError>, h: Hand, t: T)
    requires |line| == 3 && line[0] != ' ' && line[1] == ' '
    requires HandFromStr([line[0]]) == Ok(h) && parse([line[2]]) == Ok(t)
    ensures ParseGameLine(line, parse) == Ok((h, t))
  {
    SplitAtSpace(line);
  }

  lemma {:induction false} ParseInputCons<T>(lines: seq<string>, parse: string -> Result<T, EnumParseError>, g: (Hand, T), gs: seq<(Hand, T)>)
    requires |lines| > 0 && ParseGameLine(lines[0], parse) == Ok(g) && ParseInput(lines[1..], parse) == Ok(gs)
    ensures ParseInput(lines, parse) == Ok([g] + gs)
  {
  }

  lemma SampleParsesThree<T>(ls: seq<string>, parse: string -> Result<T, EnumParseError>, g0: (Hand, T), g1: (Hand, T), g2: (Hand, T))
    requires |ls| == 3
    requires ParseGameLine(ls[0], parse) == Ok(g0) && ParseGameLine(ls[1], parse) == Ok(g1)
    requires ParseGameLine(ls[2], parse) == Ok(g2)
    ensures ParseInput(ls, parse) == Ok([g0, g1, g2])
  {
    assert ls[1..][1..][1..] == [];
    ParseInputCons(ls[1..][1..], parse, g2, []);
    assert [g2] + [] == [g2];
    ParseInputCons(ls[1..], parse, g1, [g2]);
    assert [g1] + [g2] == [g1, g2];
    ParseInputCons(ls, parse, g0, [g1, g2]);
    assert [g0] + [g1, g2] == [g0, g1, g2];
  }

  lemma SampleParses(ls: seq<string>)
    requires SampleText(ls)
    ensures ParseInput(ls, HandFromStr) == Ok([(Rock, Paper), (Paper, Rock), (Scissors, Scissors)])
    ensures ParseInput(ls, OutcomeFromStr) == Ok([(Rock, Draw), (Paper, Lose), (Scissors, Win)])
  {
    GameLineOfLetters(ls[0], HandFromStr, Rock, Paper);
    GameLineOfLetters(ls[1], HandFromStr, Paper, Rock);
    GameLineOfLetters(ls[2], HandFromStr, Scissors, Scissors);
    SampleParsesThree(ls, HandFromStr, (Rock, Paper), (Paper, Rock), (Scissors, Scissors));
    GameLineOfLetters(ls[0], OutcomeFromStr, Rock, Draw);
    GameLineOfLetters(ls[1], OutcomeFromStr, Paper, Lose);
    GameLineOfLetters(ls[2], OutcomeFromStr, Scissors, Win);
    SampleParsesThree(ls, OutcomeFromStr, (Rock, Draw), (Paper, Lose), (Scissors, Win));
  }

  /** Input whose lines are the sample's scores 15 in part one and 12 in
      part two. */
  lemma SampleScores(input: string)
    requires SampleText(Lines(input))
    ensures PartOne(input) == Some(15) && PartTwo(input) == Some(12)
  {
    SampleParses(Lines(input));
    SampleTotals();
  }

  lemma SampleTotals()
    ensures SumScores([(Rock, Paper), (Paper, Rock), (Scissors, Scissors)]) == 15
    ensures SumRigged([(Rock, Draw), (Paper, Lose), (Scissors, Win)]) == 12
  {
  }

  /** The source's sample text is such input. */
  lemma SampleAnswers()
    ensures PartOne(Sample) == Some(15) && PartTwo(Sample) == Some(12)
  {
    SampleLinesRead();
    SampleScores(Sample);
  }
}
