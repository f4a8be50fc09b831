/** Day 2: the rock/paper/scissors rule engine and the strategy-guide scoring. */
module RockPaperScissors {
  import opened Wrappers

  /** A hand. Its point value is the enum discriminant (1, 2, 3). */
  datatype Choice = Rock | Paper | Scissors

  /** The result of a fight, seen from the side of `me`. Its point value is the
      enum discriminant (0, 3, 6). */
  datatype FightOutcome = Loss | Draw | Win

  /** One round of the guide: the opponent's hand and mine. */
  datatype ChoiceFight = ChoiceFight(opponent: Choice, me: Choice)

  /** Points of both players, accumulated over a guide. */
  datatype MatchResult = MatchResult(opponent: nat, me: nat)

  datatype StrategyGuide = StrategyGuide(fights: seq<ChoiceFight>)

  datatype ParseError =
    | WrongTokenCount(count: nat)
    | UnknownChoice(token: string)
    | UnknownOutcome(token: string)

  // ---------------------------------------------------------------- points

  function ChoicePoints(c: Choice): (r: nat)
    ensures 1 <= r <= 3
  {
    match c
    case Rock => 1
    case Paper => 2
    case Scissors => 3
  }

  function OutcomePoints(o: FightOutcome): (r: nat)
    ensures r <= 6 && r % 3 == 0
  {
    match o
    case Loss => 0
    case Draw => 3
    case Win => 6
  }

  /** The two point tables, and that each is one-to-one. */
  lemma PointTables()
    ensures ChoicePoints(Rock) == 1 && ChoicePoints(Paper) == 2 && ChoicePoints(Scissors) == 3
    ensures OutcomePoints(Loss) == 0 && OutcomePoints(Draw) == 3 && OutcomePoints(Win) == 6
    ensures forall a: Choice, b: Choice :: ChoicePoints(a) == ChoicePoints(b) ==> a == b
    ensures forall o: FightOutcome, p: FightOutcome :: OutcomePoints(o) == OutcomePoints(p) ==> o == p
  {
  }

  // ---------------------------------------------------------------- rules

  /** `a` beats `other`: Rock beats Scissors, Paper beats Rock, Scissors beats
      Paper. Equivalently, a's point value is one more than other's, cyclically. */
  function WinsAgainst(a: Choice, other: Choice): (r: bool)
    ensures r <==> (ChoicePoints(a) - ChoicePoints(other)) % 3 == 1
  {
    match a
    case Rock => other == Scissors
    case Paper => other == Rock
    case Scissors => other == Paper
  }

  /** The beats relation is a tournament: nothing beats itself, and of two
      distinct hands exactly one beats the other. */
  lemma WinsAgainstIsTournament(a: Choice, b: Choice)
    ensures !WinsAgainst(a, a)
    ensures a != b ==> (WinsAgainst(a, b) <==> !WinsAgainst(b, a))
  {
  }

  /** The outcome of a fight for `me`. Its point value is 3 times
      (my points - opponent's points + 1) mod 3. */
  function Outcome(f: ChoiceFight): (r: FightOutcome)
    ensures r == Draw <==> f.opponent == f.me
    ensures r == Win <==> WinsAgainst(f.me, f.opponent)
    ensures r == Loss <==> WinsAgainst(f.opponent, f.me)
    ensures OutcomePoints(r) == 3 * ((ChoicePoints(f.me) - ChoicePoints(f.opponent) + 1) % 3)
  {
    if f.opponent == f.me then Draw
    else if WinsAgainst(f.me, f.opponent) then Win
    else Loss
  }

  /** The same fight seen from the opponent's side. */
  function Swapped(f: ChoiceFight): ChoiceFight {
    ChoiceFight(f.me, f.opponent)
  }

  function Reversed(o: FightOutcome): FightOutcome {
    match o
    case Loss => Win
    case Draw => Draw
    case Win => Loss
  }

  /** Swapping the sides swaps Win and Loss and keeps Draw. */
  lemma OutcomeOfSwapped(f: ChoiceFight)
    ensures Outcome(Swapped(f)) == Reversed(Outcome(f))
  {
    WinsAgainstIsTournament(f.me, f.opponent);
  }

  /** The hand to play against `opponent` to obtain `desired`. */
  function SolveOutcome(opponent: Choice, desired: FightOutcome): (me: Choice)
    ensures Outcome(ChoiceFight(opponent, me)) == desired
  {
    match desired
    case Loss =>
      (match opponent
       case Rock => Scissors
       case Paper => Rock
       case Scissors => Paper)
    case Draw => opponent
    case Win =>
      (match opponent
       case Rock => Paper
       case Paper => Scissors
       case Scissors => Rock)
  }

  /** SolveOutcome returns the only hand that gives the desired outcome. */
  lemma SolveOutcomeUnique(opponent: Choice, me: Choice, desired: FightOutcome)
    ensures Outcome(ChoiceFight(opponent, me)) == desired <==> me == SolveOutcome(opponent, desired)
  {
  }

  // ---------------------------------------------------------------- scoring

  /** What one fight is worth to each side: its own hand, plus the outcome
      from its own point of view (Win 6, Draw 3, Loss 0). */
  function FightScore(f: ChoiceFight): (r: MatchResult)
    ensures r.me + r.opponent == ChoicePoints(f.me) + ChoicePoints(f.opponent) + 6
  {
    OutcomeOfSwapped(f);
    MatchResult(ChoicePoints(f.opponent) + OutcomePoints(Outcome(Swapped(f))),
                ChoicePoints(f.me) + OutcomePoints(Outcome(f)))
  }

  /** Per outcome: a win gives me 6 more, a loss gives the opponent 6 more, a
      draw gives each 3 more. */
  lemma FightScoreCases(f: ChoiceFight)
    ensures Outcome(f) == Win ==> FightScore(f) == MatchResult(ChoicePoints(f.opponent), ChoicePoints(f.me) + 6)
    ensures Outcome(f) == Draw ==> FightScore(f) == MatchResult(ChoicePoints(f.opponent) + 3, ChoicePoints(f.me) + 3)
    ensures Outcome(f) == Loss ==> FightScore(f) == MatchResult(ChoicePoints(f.opponent) + 6, ChoicePoints(f.me))
  {
    OutcomeOfSwapped(f);
  }

  /** Sum of both hands' point values over the fights. */
  function HandPoints(fights: seq<ChoiceFight>): nat {
    if fights == [] then 0
    else HandPoints(fights[..|fights| - 1])
         + ChoicePoints(fights[|fights| - 1].me) + ChoicePoints(fights[|fights| - 1].opponent)
  }

  /** The per-side totals of a guide, added fight by fight from (0, 0); each
      side scores at least one point per fight for its hand. */
  function TotalScore(fights: seq<ChoiceFight>): (r: MatchResult)
    ensures r.me >= |fights| && r.opponent >= |fights|
  {
    if fights == [] then MatchResult(0, 0)
    else
      var prev := TotalScore(fights[..|fights| - 1]);
      var last := FightScore(fights[|fights| - 1]);
      MatchResult(prev.opponent + last.opponent, prev.me + last.me)
  }

  /** Each fight hands out 6 outcome points in all; an empty guide scores
      nothing. */
  lemma {:induction false} TotalScoreSpec(fights: seq<ChoiceFight>)
    ensures TotalScore(fights).me + TotalScore(fights).opponent == HandPoints(fights) + 6 * |fights|
    ensures fights == [] ==> TotalScore(fights) == MatchResult(0, 0)
  {
    if fights != [] {
      TotalScoreSpec(fights[..|fights| - 1]);
    }
  }

  /** Scores are additive over concatenated guides. */
  lemma {:induction false} TotalScoreAppend(a: seq<ChoiceFight>, b: seq<ChoiceFight>)
    ensures TotalScore(a + b).me == TotalScore(a).me + TotalScore(b).me
    ensures TotalScore(a + b).opponent == TotalScore(a).opponent + TotalScore(b).opponent
    decreases |b|
  {
    if b != [] {
      var b' := b[..|b| - 1];
      assert (a + b)[..|a + b| - 1] == a + b';
      TotalScoreAppend(a, b');
    } else {
      assert a + b == a;
    }
  }

  lemma TotalScoreStep(fights: seq<ChoiceFight>, i: nat)
    requires i < |fights|
    ensures TotalScore(fights[..i + 1]) == MatchResult(
      TotalScore(fights[..i]).opponent + FightScore(fights[i]).opponent,
      TotalScore(fights[..i]).me + FightScore(fights[i]).me)
  {
    assert fights[..i + 1][..i] == fights[..i];
  }

  /** The fold of StrategyGuide::points_scored: for each fight, `me` gets its
      hand plus Win/Draw points, the opponent its hand plus Win points when I
      lose and Draw points on a draw. */
  method PointsScored(guide: StrategyGuide) returns (result: MatchResult)
    ensures result == TotalScore(guide.fights)
  {
    result := MatchResult(0, 0);
    for i := 0 to |guide.fights|
      invariant result == TotalScore(guide.fights[..i])
    {
      var fight := guide.fights[i];
      var pointsToAddMe := ChoicePoints(fight.me);
      var pointsToAddOpponent := ChoicePoints(fight.opponent);
      match Outcome(fight) {
        case Loss =>
          pointsToAddOpponent := pointsToAddOpponent + OutcomePoints(Win);
        case Draw =>
          pointsToAddOpponent := pointsToAddOpponent + OutcomePoints(Draw);
          pointsToAddMe := pointsToAddMe + OutcomePoints(Draw);
        case Win =>
          pointsToAddMe := pointsToAddMe + OutcomePoints(Win);
      }
      FightScoreCases(fight);
      TotalScoreStep(guide.fights, i);
      result := MatchResult(result.opponent + pointsToAddOpponent, result.me + pointsToAddMe);
    }
    assert guide.fights[..|guide.fights|] == guide.fights;
  }

  // ---------------------------------------------------------------- tokens

  /** The tokens that name each hand: the opponent's column uses A/B/C, mine X/Y/Z. */
  function ChoiceTokens(c: Choice): set<string> {
    match c
    case Rock => {"A", "X"}
    case Paper => {"B", "Y"}
    case Scissors => {"C", "Z"}
  }

  /** The token that names each desired outcome. */
  function OutcomeToken(o: FightOutcome): string {
    match o
    case Loss => "X"
    case Draw => "Y"
    case Win => "Z"
  }

  /** Parses a hand from exactly one of its tokens. */
  function ParseChoice(token: string): (r: Result<Choice, ParseError>)
    ensures forall c: Choice :: r == Success(c) <==> token in ChoiceTokens(c)
    ensures r.Failure? ==> r.error == UnknownChoice(token)
  {
    if token == "A" || token == "X" then Success(Rock)
    else if token == "B" || token == "Y" then Success(Paper)
    else if token == "C" || token == "Z" then Success(Scissors)
    else Failure(UnknownChoice(token))
  }

  /** Parses a desired outcome from exactly its token. */
  function ParseOutcome(token: string): (r: Result<FightOutcome, ParseError>)
    ensures forall o: FightOutcome :: r == Success(o) <==> token == OutcomeToken(o)
    ensures r.Failure? ==> r.error == UnknownOutcome(token)
  {
    if token == "X" then Success(Loss)
    else if token == "Y" then Success(Draw)
    else if token == "Z" then Success(Win)
    else Failure(UnknownOutcome(token))
  }

  /** `str::split(" ")`: the pieces between single spaces, empty pieces kept. */
  function SplitOnSpace(s: string): (parts: seq<string>)
    ensures |parts| >= 1
  {
    if s == [] then [[]]
    else
      var rest := SplitOnSpace(s[1..]);
      if s[0] == ' ' then [[]] + rest
      else [[s[0]] + rest[0]] + rest[1..]
  }

  /** The pieces joined back with one space between each pair. */
  function JoinWithSpace(parts: seq<string>): string
    requires |parts| >= 1
  {
    if |parts| == 1 then parts[0] else parts[0] + " " + JoinWithSpace(parts[1..])
  }

  /** Splitting loses nothing: the pieces hold no space and join back to the input. */
  lemma {:induction false} SplitOnSpaceJoins(s: string)
    ensures JoinWithSpace(SplitOnSpace(s)) == s
    ensures forall k | 0 <= k < |SplitOnSpace(s)| :: ' ' !in SplitOnSpace(s)[k]
  {
    if s != [] {
      var rest := SplitOnSpace(s[1..]);
      SplitOnSpaceJoins(s[1..]);
      if s[0] == ' ' {
        assert SplitOnSpace(s) == [[]] + rest;
        assert ([[]] + rest)[1..] == rest;
      } else {
        var parts := SplitOnSpace(s);
        assert parts == [[s[0]] + rest[0]] + rest[1..];
        if |rest| == 1 {
          assert parts == [[s[0]] + rest[0]];
        } else {
          assert parts[1..] == rest[1..];
          assert JoinWithSpace(rest) == rest[0] + " " + JoinWithSpace(rest[1..]);
        }
        forall k | 0 <= k < |parts| ensures ' ' !in parts[k] {
          if k > 0 { assert parts[k] == rest[k]; }
        }
      }
    }
  }

  /** A line "<opponent> <mine>": both guides' fights for it. The first fight
      reads the second token as my hand (step 1), the second reads it as the
      desired outcome and plays SolveOutcome (step 2). */
  function ParseLine(line: string): (r: Result<(ChoiceFight, ChoiceFight), ParseError>)
    ensures r.Success? ==> |SplitOnSpace(line)| == 2 && r.value.1.opponent == r.value.0.opponent
    ensures r.Success? ==> ParseOutcome(SplitOnSpace(line)[1]) == Success(Outcome(r.value.1))
  {
    var tokens := SplitOnSpace(line);
    if |tokens| != 2 then
      Failure(WrongTokenCount(|tokens|))
    else
      match ParseChoice(tokens[0])
      case Failure(e) => Failure(e)
      case Success(opponent) =>
        match ParseChoice(tokens[1])
        case Failure(e) => Failure(e)
        case Success(meStep1) =>
          match ParseOutcome(tokens[1])
          case Failure(e) => Failure(e)
          case Success(desired) =>
            Success((ChoiceFight(opponent, meStep1), ChoiceFight(opponent, SolveOutcome(opponent, desired))))
  }

  /** Two characters other than space around one space split into two
      one-character tokens. */
  lemma SplitOnSpaceOfPair(a: char, b: char)
    requires a != ' ' && b != ' '
    ensures SplitOnSpace([a, ' ', b]) == [[a], [b]]
  {
    var empty: string := [];
    assert [b][1..] == empty;
    var last := SplitOnSpace(empty);
    assert last == [empty];
    assert SplitOnSpace([b]) == [[b] + last[0]] + last[1..];
    assert [b] + last[0] == [b] && last[1..] == [];
    assert [' ', b][1..] == [b];
    var tail := SplitOnSpace([' ', b]);
    assert tail == [empty] + [[b]];
    assert [a, ' ', b][1..] == [' ', b];
    assert SplitOnSpace([a, ' ', b]) == [[a] + tail[0]] + tail[1..];
    assert [a] + tail[0] == [a] && tail[1..] == [[b]];
  }

  /** Two tokens join back to the line around one space. */
  lemma TwoTokensJoin(line: string)
    requires |SplitOnSpace(line)| == 2
    ensures line == SplitOnSpace(line)[0] + " " + SplitOnSpace(line)[1]
  {
    SplitOnSpaceJoins(line);
    var tokens := SplitOnSpace(line);
    assert tokens[1..] == [tokens[1]];
  }

  /** A line parses exactly when it is a hand token, a space, and a token that
      is both a hand and an outcome. */
  lemma ParseLineSucceeds(line: string)
    ensures ParseLine(line).Success? <==>
      |line| == 3 && line[1] == ' ' && line[0] in "ABCXYZ" && line[2] in "XYZ"
  {
    if ParseLine(line).Success? {
      ParsedLineShape(line);
    }
    if |line| == 3 && line[1] == ' ' && line[0] in "ABCXYZ" && line[2] in "XYZ" {
      assert line == [line[0], ' ', line[2]];
      SplitOnSpaceOfPair(line[0], line[2]);
    }
  }

  lemma ParsedLineShape(line: string)
    requires ParseLine(line).Success?
    ensures |line| == 3 && line[1] == ' ' && line[0] in "ABCXYZ" && line[2] in "XYZ"
  {
    var tokens := SplitOnSpace(line);
    TwoTokensJoin(line);
    assert tokens[0] in {"A", "X", "B", "Y", "C", "Z"};
    assert tokens[1] in {"X", "Y", "Z"};
  }

  /** The first token is the opponent's hand in both fights; the second is my
      hand in the first fight and the outcome of the second. */
  lemma ParseLineFights(line: string)
    ensures ParseLine(line).Success? ==>
      var r := ParseLine(line).value;
      && |line| == 3
      && ParseChoice(line[..1]) == Success(r.0.opponent)
      && ParseChoice(line[2..]) == Success(r.0.me)
      && r.1.opponent == r.0.opponent
      && ParseOutcome(line[2..]) == Success(Outcome(r.1))
  {
    if ParseLine(line).Success? {
      var tokens := SplitOnSpace(line);
      TwoTokensJoin(line);
      assert |tokens[0]| == 1 by {
        assert tokens[0] in {"A", "X", "B", "Y", "C", "Z"};
      }
      assert line[..1] == tokens[0] && line[2..] == tokens[1];
    }
  }

  /** The worked example's lines: the first token is the opponent's hand, the
      second read as a hand is mine. */
  lemma BriefExampleParse()
    ensures ParseLine("A Y").Success? && ParseLine("A Y").value.0 == ChoiceFight(Rock, Paper)
    ensures ParseLine("B X").Success? && ParseLine("B X").value.0 == ChoiceFight(Paper, Rock)
    ensures ParseLine("C Z").Success? && ParseLine("C Z").value.0 == ChoiceFight(Scissors, Scissors)
  {
    BriefExampleLine('A', 'Y');
    assert "A Y" == ['A', ' ', 'Y'];
    assert ParseChoice("A") == Success(Rock) && ParseChoice("Y") == Success(Paper);
    BriefExampleLine('B', 'X');
    assert "B X" == ['B', ' ', 'X'];
    assert ParseChoice("B") == Success(Paper) && ParseChoice("X") == Success(Rock);
    BriefExampleLine('C', 'Z');
    assert "C Z" == ['C', ' ', 'Z'];
    assert ParseChoice("C") == Success(Scissors) && ParseChoice("Z") == Success(Scissors);
  }

  /** A line of a hand token and a hand token parses into those two hands. */
  lemma BriefExampleLine(a: char, b: char)
    requires a in "ABC" && b in "XYZ"
    ensures ParseLine([a, ' ', b]).Success?
    ensures ParseLine([a, ' ', b]).value.0 == ChoiceFight(ParseChoice([a]).value, ParseChoice([b]).value)
  {
    SplitOnSpaceOfPair(a, b);
  }

  /** The worked example's fights score 15 for me and 15 for the opponent. */
  lemma BriefExampleScore()
    ensures TotalScore([ChoiceFight(Rock, Paper), ChoiceFight(Paper, Rock), ChoiceFight(Scissors, Scissors)])
            == MatchResult(15, 15)
  {
    var fights := [ChoiceFight(Rock, Paper), ChoiceFight(Paper, Rock), ChoiceFight(Scissors, Scissors)];
    FightScoreCases(fights[0]);
    FightScoreCases(fights[1]);
    FightScoreCases(fights[2]);
    assert fights[..1][..0] == [];
    assert TotalScore(fights[..1]) == MatchResult(1, 8);
    assert fights[..2][..1] == fights[..1];
    assert TotalScore(fights[..2]) == MatchResult(9, 9);
    assert fights[..3] == fights;
  }
}
