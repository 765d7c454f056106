/**
 * GameController: the rules of one game. The computer commits to a random
 * number before the coin guess and before each throw (its own die pick is a
 * plain uniform draw); the answers come from a sequence of input lines, and
 * a prompt reads lines until one is valid.
 * When the lines run out before that, the game ends with EndOfInput.
 */
module Game {
  import opened Wrappers
  import opened Text
  import opened Arithmetic
  import opened CryptoProvider
  import opened FairNumberGenerator
  import opened Dice
  import opened TableGenerator
  import opened GameStates

  /** The fewest dice a game can be played with. */
  const MinDice: nat := 3

  // ---------------------------------------------------------------- input

  /** What a prompt asks for: the coin guess, or a number below a bound. */
  datatype Prompt = Guess | IndexBelow(bound: nat)

  /**
   * The value of one input line, or None when the prompt would ask again.
   * The guess must read exactly "0" or "1" once stripped; a number must be a
   * string of digits below the bound.
   */
  function Parse(p: Prompt, line: string): (r: Option<nat>)
    ensures r.Some? && p.Guess? ==> r.value <= 1
    ensures r.Some? && p.IndexBelow? ==> r.value < p.bound
  {
    var choice := Strip(line);
    match p
    case Guess =>
      if choice == "0" then Some(0) else if choice == "1" then Some(1) else None
    case IndexBelow(bound) =>
      if IsDigits(choice) && DecimalValue(choice) < bound then Some(DecimalValue(choice)) else None
  }

  /**
   * What Parse accepts, in both directions: a guess is accepted as v exactly
   * when v is 0 or 1 and the stripped line is its decimal text; a number is
   * accepted as v exactly when the stripped line is a digit string of value v
   * below the bound.
   */
  lemma ParseMeaning(p: Prompt, line: string, v: nat)
    ensures p.Guess? ==> (Parse(p, line) == Some(v) <==> v <= 1 && Strip(line) == NatToDecimal(v))
    ensures p.IndexBelow? ==>
              (Parse(p, line) == Some(v) <==>
               IsDigits(Strip(line)) && DecimalValue(Strip(line)) == v && v < p.bound)
  {
    if p.Guess? {
      assert NatToDecimal(0) == "0" && NatToDecimal(1) == "1";
      if Strip(line) == NatToDecimal(v) {
        DecimalRoundTrip(v);
        assert Strip(line) == "0" ==> v == 0;
        assert Strip(line) == "1" ==> v == 1;
      }
    }
  }

  /** Every value the prompt allows can be entered: its decimal text is accepted. */
  lemma ParseAcceptsEveryValue(p: Prompt, line: string, v: nat)
    requires if p.Guess? then v <= 1 else v < p.bound
    requires Strip(line) == NatToDecimal(v)
    ensures Parse(p, line) == Some(v)
  {
    DecimalRoundTrip(v);
  }

  /** With nothing to choose from, a selection prompt accepts no line at all. */
  lemma ParseEmptyPoolRejects(line: string)
    ensures Parse(IndexBelow(0), line) == None
  {
  }

  /** The guess is a token test: "00" is refused although a selection reads it as 0. */
  lemma GuessTokenIsExact()
    ensures Parse(Guess, "00") == None
    ensures Parse(IndexBelow(1), "00") == Some(0)
  {
    assert Strip("00") == "00";
    assert DecimalValue("00") == 10 * DecimalValue("0") + DigitValue('0');
  }

  /**
   * A retry loop over any line check: the value of the first line `accept`
   * takes, and the lines after it; None and no lines left when it takes none.
   */
  function FirstAccepted(accept: string -> Option<nat>, lines: seq<string>): (r: (Option<nat>, seq<string>))
    ensures |r.1| <= |lines| && r.1 == lines[|lines| - |r.1|..]
  {
    if lines == [] then (None, [])
    else match accept(lines[0])
      case Some(v) => (Some(v), lines[1..])
      case None => FirstAccepted(accept, lines[1..])
  }

  /** A refused first line followed by n - 1 refused lines makes n refused lines. */
  lemma RefusedPrefix(accept: string -> Option<nat>, lines: seq<string>, n: nat)
    requires 0 < n <= |lines| && accept(lines[0]).None?
    requires forall k :: 0 <= k < n - 1 ==> accept(lines[1..][k]).None?
    ensures forall k :: 0 <= k < n ==> accept(lines[k]).None?
  {
    forall k | 0 < k < n ensures accept(lines[k]).None? {
      assert lines[k] == lines[1..][k - 1];
    }
  }

  /** With no answer, every line was refused and all of them were consumed. */
  lemma {:induction false} NoAnswerRefusesAll(accept: string -> Option<nat>, lines: seq<string>)
    requires FirstAccepted(accept, lines).0.None?
    ensures FirstAccepted(accept, lines).1 == []
    ensures forall k :: 0 <= k < |lines| ==> accept(lines[k]).None?
  {
    if lines != [] {
      var tail := lines[1..];
      assert accept(lines[0]).None?;
      NoAnswerRefusesAll(accept, tail);
      RefusedPrefix(accept, lines, |lines|);
    }
  }

  /** The answer comes from the first line taken, and every line before it was refused. */
  lemma {:induction false} AnswerIsFirstValid(accept: string -> Option<nat>, lines: seq<string>)
    requires FirstAccepted(accept, lines).0.Some?
    ensures var used := |lines| - |FirstAccepted(accept, lines).1|;
            0 < used && accept(lines[used - 1]) == FirstAccepted(accept, lines).0 &&
            forall k :: 0 <= k < used - 1 ==> accept(lines[k]).None?
  {
    if accept(lines[0]).None? {
      var tail := lines[1..];
      AnswerIsFirstValid(accept, tail);
      var used := |lines| - |FirstAccepted(accept, lines).1|;
      assert lines[used - 1] == tail[used - 2];
      RefusedPrefix(accept, lines, used - 1);
    }
  }

  /** There is no answer exactly when every line is refused. */
  lemma NoAnswerMeansAllRefused(accept: string -> Option<nat>, lines: seq<string>)
    ensures FirstAccepted(accept, lines).0.None? <==> forall k :: 0 <= k < |lines| ==> accept(lines[k]).None?
  {
    if FirstAccepted(accept, lines).0.None? {
      NoAnswerRefusesAll(accept, lines);
    } else {
      AnswerIsFirstValid(accept, lines);
      var used := |lines| - |FirstAccepted(accept, lines).1|;
      assert accept(lines[used - 1]).Some?;
    }
  }

  /** The retry loop of prompt p: its answer is always in the prompt's range. */
  function FirstAnswer(p: Prompt, lines: seq<string>): (r: (Option<nat>, seq<string>))
    ensures |r.1| <= |lines| && r.1 == lines[|lines| - |r.1|..]
    ensures r.0.Some? && p.Guess? ==> r.0.value <= 1
    ensures r.0.Some? && p.IndexBelow? ==> r.0.value < p.bound
  {
    var accept := line => Parse(p, line);
    var r := FirstAccepted(accept, lines);
    if r.0.Some? then
      AnswerIsFirstValid(accept, lines);
      r
    else r
  }

  /** A refused first line is skipped: the answer comes from the lines after it. */
  lemma FirstAnswerSkips(p: Prompt, lines: seq<string>)
    requires lines != [] && Parse(p, lines[0]).None?
    ensures FirstAnswer(p, lines) == FirstAnswer(p, lines[1..])
  {
  }

  /** An accepted first line is the answer, and the lines after it are left. */
  lemma FirstAnswerTakes(p: Prompt, lines: seq<string>)
    requires lines != [] && Parse(p, lines[0]).Some?
    ensures FirstAnswer(p, lines) == (Parse(p, lines[0]), lines[1..])
  {
  }

  /** The retry loop of a prompt: reads lines until one is valid. */
  method ReadAnswer(p: Prompt, lines: seq<string>) returns (answer: Option<nat>, rest: seq<string>)
    ensures (answer, rest) == FirstAnswer(p, lines)
  {
    var i := 0;
    while i < |lines| && Parse(p, lines[i]).None?
      invariant 0 <= i <= |lines|
      invariant FirstAnswer(p, lines[i..]) == FirstAnswer(p, lines)
    {
      assert lines[i..][0] == lines[i] && lines[i..][1..] == lines[i + 1..];
      FirstAnswerSkips(p, lines[i..]);
      i := i + 1;
    }
    if i < |lines| {
      assert lines[i..][0] == lines[i] && lines[i..][1..] == lines[i + 1..];
      FirstAnswerTakes(p, lines[i..]);
      answer, rest := Parse(p, lines[i]), lines[i + 1..];
    } else {
      answer, rest := None, [];
    }
  }

  // ---------------------------------------------------------------- dice

  /** [Die(values) for values in diceValues]: the first empty face list fails. */
  function MakeDice(diceValues: seq<seq<int>>): (r: Result<seq<Die>>)
    ensures r.Err? <==> [] in diceValues
    ensures r.Err? ==> r.error == EmptyDie
    ensures r.Ok? ==> |r.value| == |diceValues| &&
                      forall i :: 0 <= i < |diceValues| ==> r.value[i].values == diceValues[i]
  {
    if diceValues == [] then Ok([])
    else match NewDie(diceValues[0])
      case Err(e) => Err(e)
      case Ok(d) =>
        match MakeDice(diceValues[1..])
        case Err(e) => Err(e)
        case Ok(ds) => Ok([d] + ds)
  }

  /** The checks of the constructor: at least three dice, then no die without faces. */
  function BuildDice(diceValues: seq<seq<int>>): (r: Result<seq<Die>>)
    ensures r.Err? <==> |diceValues| < MinDice || [] in diceValues
    ensures |diceValues| < MinDice ==> r == Err(TooFewDice)
    ensures r.Err? && |diceValues| >= MinDice ==> r.error == EmptyDie
    ensures r.Ok? ==> |r.value| == |diceValues| >= MinDice &&
                      forall i :: 0 <= i < |diceValues| ==> r.value[i].values == diceValues[i]
  {
    if |diceValues| < MinDice then Err(TooFewDice) else MakeDice(diceValues)
  }

  // ---------------------------------------------------------------- coin flip

  /** Exactly half of all draws make the computer's number equal to a given guess. */
  lemma CoinFlipIsFair(guess: nat)
    requires guess <= 1
    ensures 2 * Hits(1, DrawRange, guess) == DrawRange
  {
    HitsCount(1, DrawRange, guess);
  }

  // ---------------------------------------------------------------- throw

  /** The face index a throw lands on: the two numbers added modulo the number of faces. */
  function ThrowIndex(playerNum: nat, computerNum: nat, n: nat): (r: nat)
    requires n > 0
    ensures r < n
  {
    (playerNum + computerNum) % n
  }

  /** The one number that, added to known, lands on target. */
  function Partner(known: nat, target: nat, n: nat): (other: nat)
    requires known < n && target < n
    ensures other < n && ThrowIndex(known, other, n) == target
  {
    var other := if target >= known then target - known else target + n - known;
    ModBelowTwice(known + other, n);
    other
  }

  /**
   * Whatever one side contributes, each face index is reached by exactly one
   * contribution of the other side.
   */
  lemma ThrowIndexUnique(known: nat, other: nat, target: nat, n: nat)
    requires known < n && other < n && target < n
    ensures ThrowIndex(known, other, n) == target <==> other == Partner(known, target, n)
  {
    ModBelowTwice(known + other, n);
  }

  /** The number of draws in [0, count) that, with the player's number, land on target. */
  function ThrowHits(n: nat, playerNum: nat, count: nat, target: nat): nat
    requires n > 0 && count <= DrawRange
  {
    if count == 0 then 0
    else
      var computerNum := UniformRandom(n - 1, count - 1).value;
      ThrowHits(n, playerNum, count - 1, target)
        + (if ThrowIndex(playerNum, computerNum, n) == target then 1 else 0)
  }

  /** A target index is reached by as many draws as the one number that leads to it. */
  lemma {:induction false} ThrowHitsArePartnerHits(n: nat, playerNum: nat, count: nat, target: nat)
    requires n > 0 && playerNum < n && target < n && count <= DrawRange
    ensures ThrowHits(n, playerNum, count, target) == Hits(n - 1, count, Partner(playerNum, target, n))
  {
    if count > 0 {
      ThrowHitsArePartnerHits(n, playerNum, count - 1, target);
      ThrowIndexUnique(playerNum, UniformRandom(n - 1, count - 1).value, target, n);
    }
  }

  /**
   * Fair modular combination: whichever valid number the player adds, no face
   * index comes up for more than one draw more than any other.
   */
  lemma ThrowNearlyUniform(n: nat, playerNum: nat, t: nat, u: nat)
    requires n > 0 && playerNum < n && t < n && u < n
    ensures ThrowHits(n, playerNum, DrawRange, t) <= ThrowHits(n, playerNum, DrawRange, u) + 1
  {
    ThrowHitsArePartnerHits(n, playerNum, DrawRange, t);
    ThrowHitsArePartnerHits(n, playerNum, DrawRange, u);
    UniformRandomNearlyUniform(n - 1, Partner(playerNum, t, n), Partner(playerNum, u, n));
  }

  /** The score of a throw: the face at the combined index. */
  function Throw(die: Die, playerNum: nat, computerNum: nat): (score: int)
    ensures score in die.values
  {
    Face(die, ThrowIndex(playerNum, computerNum, Len(die)))
  }

  /** A die with a single face always scores that face. */
  lemma SingleFaceThrow(die: Die, playerNum: nat, computerNum: nat)
    requires Len(die) == 1
    ensures Throw(die, playerNum, computerNum) == die.values[0]
  {
  }

  // ---------------------------------------------------------------- outcome

  datatype Outcome = PlayerWins | ComputerWins | Tie

  /** The higher score wins; equal scores tie. */
  function Compare(playerScore: int, computerScore: int): (o: Outcome)
    ensures o == PlayerWins <==> playerScore > computerScore
    ensures o == ComputerWins <==> playerScore < computerScore
    ensures o == Tie <==> playerScore == computerScore
  {
    if playerScore > computerScore then PlayerWins
    else if playerScore < computerScore then ComputerWins
    else Tie
  }

  /** Exchanging the scores exchanges winner and loser. */
  lemma CompareMirror(a: int, b: int)
    ensures Compare(a, b) == PlayerWins <==> Compare(b, a) == ComputerWins
    ensures Compare(a, b) == Tie <==> Compare(b, a) == Tie
  {
  }

  // ---------------------------------------------------------------- the game

  /** The keys and draws the game takes from the entropy source, in the order it asks. */
  datatype Entropy = Entropy(
    coinKey: Key, coinDraw: Draw,
    pickDraw: Draw,
    playerKey: Key, playerDraw: Draw,
    computerKey: Key, computerDraw: Draw)

  // ---------------------------------------------------------------- selections

  /** _computer_select_die on a pool: the die at the uniform index; an empty pool is an error. */
  function ComputerChoice(pool: seq<Die>, draw: Draw): (r: Result<Die>)
    ensures r.Err? <==> pool == []
    ensures r.Err? ==> r.error == NoDiceAvailable
    ensures r.Ok? ==> r.value in pool
  {
    if pool == [] then Err(NoDiceAvailable)
    else Ok(pool[UniformRandom(|pool| - 1, draw).value])
  }

  /** _player_select_die on a pool: the die at the first valid index typed, and the lines after it. */
  function PlayerChoice(pool: seq<Die>, lines: seq<string>): (r: (Option<Die>, seq<string>))
    ensures r.1 == FirstAnswer(IndexBelow(|pool|), lines).1
    ensures r.0.Some? <==> FirstAnswer(IndexBelow(|pool|), lines).0.Some?
    ensures r.0.Some? ==> r.0.value in pool
  {
    var (answer, after) := FirstAnswer(IndexBelow(|pool|), lines);
    if answer.None? then (None, after) else (Some(pool[answer.value]), after)
  }

  /** With an empty pool the player can choose nothing: the prompt reads until the lines run out. */
  lemma EmptyPoolNoChoice(lines: seq<string>)
    ensures PlayerChoice([], lines) == (None, [])
  {
    forall k | 0 <= k < |lines| ensures Parse(IndexBelow(0), lines[k]).None? {
      ParseEmptyPoolRejects(lines[k]);
    }
    NoAnswerMeansAllRefused(line => Parse(IndexBelow(0), line), lines);
    NoAnswerRefusesAll(line => Parse(IndexBelow(0), line), lines);
  }

  /** The pool after both picks (player's die, computer's die): the first picker's die leaves first. */
  function Left(pool: seq<Die>, playerFirst: bool, picks: (Die, Die)): seq<Die> {
    if playerFirst then RemoveFirst(RemoveFirst(pool, picks.0), picks.1)
    else RemoveFirst(RemoveFirst(pool, picks.1), picks.0)
  }

  /**
   * The two selections of start_game in the order the coin decided: the
   * first picker chooses from the whole pool, the second from what the first
   * left. The result is (player's die, computer's die) and the lines left.
   */
  function Selection(pool: seq<Die>, playerFirst: bool, draw: Draw, lines: seq<string>)
    : (r: (Result<(Die, Die)>, seq<string>))
    ensures |r.1| <= |lines| && r.1 == lines[|lines| - |r.1|..]
    ensures r.0.Err? ==> r.0.error == EndOfInput || (r.0.error == NoDiceAvailable && |pool| < 2)
    ensures r.0.Ok? ==> TookTwo(pool, Left(pool, playerFirst, r.0.value), r.0.value.0, r.0.value.1)
    ensures r.0.Ok? && playerFirst ==>
              PlayerChoice(pool, lines).0 == Some(r.0.value.0)
              && ComputerChoice(RemoveFirst(pool, r.0.value.0), draw) == Ok(r.0.value.1)
    ensures r.0.Ok? && !playerFirst ==>
              ComputerChoice(pool, draw) == Ok(r.0.value.1)
              && PlayerChoice(RemoveFirst(pool, r.0.value.1), lines).0 == Some(r.0.value.0)
  {
    if playerFirst then
      match PlayerChoice(pool, lines)
      case (None, after) => (Err(EndOfInput), after)
      case (Some(p), after) =>
        match ComputerChoice(RemoveFirst(pool, p), draw)
        case Err(e) =>
          RemoveFirstCounts(pool, p);
          (Err(e), after)
        case Ok(c) =>
          RemoveTwo(pool, p, c);
          (Ok((p, c)), after)
    else
      match ComputerChoice(pool, draw)
      case Err(e) => (Err(e), lines)
      case Ok(c) =>
        match PlayerChoice(RemoveFirst(pool, c), lines)
        case (None, after) => (Err(EndOfInput), after)
        case (Some(p), after) =>
          RemoveTwo(pool, c, p);
          (Ok((p, c)), after)
  }

  /**
   * The coin's decision matters: with the same draw and the same typed
   * index, the player gets the first die when choosing first and the second
   * die otherwise.
   */
  lemma PickOrderMatters(a: Die, b: Die, c: Die)
    requires a != b
    ensures Selection([a, b, c], true, 0, ["0"]).0 == Ok((a, b))
    ensures Selection([a, b, c], false, 0, ["0"]).0 == Ok((b, a))
  {
    StripKeeps("0");
    assert DecimalValue("0") == 0;
    assert FirstAnswer(IndexBelow(3), ["0"]) == (Some(0), []) by {
      FirstAnswerTakes(IndexBelow(3), ["0"]);
    }
    assert FirstAnswer(IndexBelow(2), ["0"]) == (Some(0), []) by {
      FirstAnswerTakes(IndexBelow(2), ["0"]);
    }
    UniformRandomSmallDraw(2, 0);
    UniformRandomSmallDraw(1, 0);
    assert RemoveFirst([a, b, c], a) == [b, c];
    assert ComputerChoice([b, c], 0) == Ok(b);
    assert ComputerChoice([a, b, c], 0) == Ok(a);
    assert PlayerChoice([b, c], ["0"]).0 == Some(b);
  }

  // ---------------------------------------------------------------- the round

  /**
   * _make_throw as a function: the computer's number is the uniform draw
   * below the die's size, the player's is the first valid number typed, and
   * the score is the face at their sum; with the lines left.
   */
  function Roll(die: Die, draw: Draw, lines: seq<string>): (r: (Option<int>, seq<string>))
    ensures r.1 == FirstAnswer(IndexBelow(Len(die)), lines).1
    ensures r.0.Some? <==> FirstAnswer(IndexBelow(Len(die)), lines).0.Some?
    ensures r.0.Some? ==> r.0.value in die.values
    ensures r.0.Some? ==>
              r.0.value == Throw(die, FirstAnswer(IndexBelow(Len(die)), lines).0.value,
                                 UniformRandom(Len(die) - 1, draw).value)
  {
    var (playerNum, after) := FirstAnswer(IndexBelow(Len(die)), lines);
    if playerNum.None? then (None, after)
    else (Some(Throw(die, playerNum.value, UniformRandom(Len(die) - 1, draw).value)), after)
  }

  /** Who chose first, the dice, the scores and the outcome of one game. */
  datatype Round = Round(
    playerFirst: bool,
    playerDie: Die, computerDie: Die,
    playerScore: int, computerScore: int,
    outcome: Outcome)

  /** What the game shows: the probability table and the round. */
  datatype Report = Report(table: seq<seq<Entry>>, round: Round)

  /**
   * The two throws of start_game, the player's die first, each prompt
   * reading the lines the previous one left: both scores, or None when the
   * lines run out.
   */
  function Throws(playerDie: Die, computerDie: Die, e: Entropy, lines: seq<string>)
    : (r: (Option<(int, int)>, seq<string>))
    ensures r.0.Some? ==> r.0.value.0 in playerDie.values && r.0.value.1 in computerDie.values
    ensures r.0.Some? ==>
              var (playerScore, afterPlayer) := Roll(playerDie, e.playerDraw, lines);
              playerScore == Some(r.0.value.0)
              && Roll(computerDie, e.computerDraw, afterPlayer).0 == Some(r.0.value.1)
  {
    var (playerScore, afterPlayer) := Roll(playerDie, e.playerDraw, lines);
    if playerScore.None? then (None, afterPlayer)
    else
      var (computerScore, afterComputer) := Roll(computerDie, e.computerDraw, afterPlayer);
      if computerScore.None? then (None, afterComputer)
      else (Some((playerScore.value, computerScore.value)), afterComputer)
  }

  /**
   * start_game once the coin has decided: the selections in that order, a
   * throw with each die and the comparison; with the lines left.
   */
  function PlayFrom(pool: seq<Die>, playerFirst: bool, e: Entropy, lines: seq<string>)
    : (Result<Round>, seq<string>)
  {
    var (picks, afterPicks) := Selection(pool, playerFirst, e.pickDraw, lines);
    if picks.Err? then (Err(picks.error), afterPicks)
    else
      var (scores, afterThrows) := Throws(picks.value.0, picks.value.1, e, afterPicks);
      if scores.None? then (Err(EndOfInput), afterThrows)
      else
        var (playerScore, computerScore) := scores.value;
        (Ok(Round(playerFirst, picks.value.0, picks.value.1, playerScore, computerScore,
                  Compare(playerScore, computerScore))),
         afterThrows)
  }

  /**
   * What a round promises: it fails only when the lines run out or the pool
   * holds fewer than two dice; otherwise it keeps the coin's order, the dice
   * are the selections in that order, both left the pool, each score is a
   * face of its die and the outcome compares the scores.
   */
  lemma PlayFromSound(pool: seq<Die>, playerFirst: bool, e: Entropy, lines: seq<string>)
    ensures var r := PlayFrom(pool, playerFirst, e, lines).0;
            && (r.Err? ==> r.error == EndOfInput || (r.error == NoDiceAvailable && |pool| < 2))
            && (r.Ok? ==>
                  && r.value.playerFirst == playerFirst
                  && Selection(pool, playerFirst, e.pickDraw, lines).0
                     == Ok((r.value.playerDie, r.value.computerDie))
                  && TookTwo(pool, Left(pool, playerFirst, (r.value.playerDie, r.value.computerDie)),
                             r.value.playerDie, r.value.computerDie)
                  && r.value.playerScore in r.value.playerDie.values
                  && r.value.computerScore in r.value.computerDie.values
                  && Throws(r.value.playerDie, r.value.computerDie, e,
                            Selection(pool, playerFirst, e.pickDraw, lines).1).0
                     == Some((r.value.playerScore, r.value.computerScore))
                  && r.value.outcome == Compare(r.value.playerScore, r.value.computerScore))
  {
  }

  /**
   * start_game after the table: the coin flip decides who picks first (the
   * player when the first valid guess equals the computer's uniform bit),
   * then the round is played; with the lines left.
   */
  function Play(pool: seq<Die>, e: Entropy, lines: seq<string>): (Result<Round>, seq<string>) {
    var (guess, afterGuess) := FirstAnswer(Guess, lines);
    if guess.None? then (Err(EndOfInput), afterGuess)
    else PlayFrom(pool, guess.value == UniformRandom(1, e.coinDraw).value, e, afterGuess)
  }

  /**
   * The coin flip: with no valid guess the game ends with EndOfInput; a game
   * that completes had a valid guess, and the player chose first exactly when
   * it equals the computer's uniform bit.
   */
  lemma PlaySound(pool: seq<Die>, e: Entropy, lines: seq<string>)
    ensures var r := Play(pool, e, lines).0;
            && (FirstAnswer(Guess, lines).0.None? ==> r == Err(EndOfInput))
            && (r.Ok? ==>
                  && FirstAnswer(Guess, lines).0.Some?
                  && r.value.playerFirst
                     == (FirstAnswer(Guess, lines).0.value == UniformRandom(1, e.coinDraw).value))
  {
  }

  class GameController {
    const state: GameState

    /** The constructor once its checks have passed. */
    constructor (diceValues: seq<seq<int>>)
      requires BuildDice(diceValues).Ok?
      ensures fresh(state)
      ensures state.originalDice == BuildDice(diceValues).value
      ensures state.availableDice == state.originalDice
      ensures state.playerDie == None && state.computerDie == None
    {
      state := new GameState(BuildDice(diceValues).value);
    }

    /** GameController(diceValues): fewer than three dice or an empty die is refused. */
    static method Create(diceValues: seq<seq<int>>) returns (r: Result<GameController>)
      ensures r.Err? <==> BuildDice(diceValues).Err?
      ensures r.Err? ==> r.error == BuildDice(diceValues).error
      ensures r.Ok? ==> fresh(r.value) && fresh(r.value.state)
      ensures r.Ok? ==> r.value.state.originalDice == BuildDice(diceValues).value
                        && r.value.state.availableDice == r.value.state.originalDice
                        && r.value.state.playerDie == None && r.value.state.computerDie == None
    {
      match BuildDice(diceValues)
      case Err(e) =>
        r := Err(e);
      case Ok(_) =>
        var game := new GameController(diceValues);
        r := Ok(game);
    }

    /**
     * _determine_first_player: the computer commits to a bit, then reads the
     * guess; the player chooses first when the guess equals the bit.
     */
    method DetermineFirstPlayer(key: Key, draw: Draw, hmac: Mac, lines: seq<string>)
      returns (commitment: Commitment, first: Option<bool>, rest: seq<string>)
      ensures GenerateFairNumber(1, key, draw, hmac) == Ok(commitment)
      ensures commitment.number <= 1
      ensures rest == FirstAnswer(Guess, lines).1
      ensures first.Some? <==> FirstAnswer(Guess, lines).0.Some?
      ensures first.Some? ==> first.value == (FirstAnswer(Guess, lines).0.value == commitment.number)
    {
      commitment := GenerateFairNumber(1, key, draw, hmac).value;
      var guess;
      guess, rest := ReadAnswer(Guess, lines);
      first := if guess.Some? then Some(guess.value == commitment.number) else None;
    }

    /**
     * _computer_select_die: a uniform index into the pool, and that die is
     * removed from the pool; an empty pool is an error.
     */
    method ComputerSelectDie(draw: Draw) returns (r: Result<Die>)
      modifies state
      ensures r == ComputerChoice(old(state.availableDice), draw)
      ensures r.Err? ==> state.availableDice == old(state.availableDice)
      ensures r.Ok? ==> state.availableDice == RemoveFirst(old(state.availableDice), r.value)
      ensures state.playerDie == old(state.playerDie) && state.computerDie == old(state.computerDie)
    {
      var available := state.availableDice;
      if available == [] {
        r := Err(NoDiceAvailable);
        return;
      }
      var choice := UniformRandom(|available| - 1, draw).value;
      var selected := available[choice];
      state.SelectDie(selected);
      r := Ok(selected);
    }

    /**
     * _player_select_die: reads lines until one names a position in the
     * pool, then removes that die from the pool.
     */
    method PlayerSelectDie(lines: seq<string>) returns (r: Option<Die>, rest: seq<string>)
      modifies state
      ensures (r, rest) == PlayerChoice(old(state.availableDice), lines)
      ensures r.None? ==> state.availableDice == old(state.availableDice)
      ensures r.Some? ==> state.availableDice == RemoveFirst(old(state.availableDice), r.value)
      ensures state.playerDie == old(state.playerDie) && state.computerDie == old(state.computerDie)
    {
      var available := state.availableDice;
      var choice;
      choice, rest := ReadAnswer(IndexBelow(|available|), lines);
      if choice.None? {
        r := None;
        return;
      }
      var selected := available[choice.value];
      state.SelectDie(selected);
      r := Some(selected);
    }

    /**
     * _make_throw: the computer commits to a number below the die's size,
     * reads the player's number, and the face at their sum modulo the size
     * is the score.
     */
    method MakeThrow(die: Die, key: Key, draw: Draw, hmac: Mac, lines: seq<string>)
      returns (commitment: Commitment, score: Option<int>, rest: seq<string>)
      ensures GenerateFairNumber(Len(die) - 1, key, draw, hmac) == Ok(commitment)
      ensures commitment.number < Len(die)
      ensures (score, rest) == Roll(die, draw, lines)
    {
      commitment := GenerateFairNumber(Len(die) - 1, key, draw, hmac).value;
      var playerNum;
      playerNum, rest := ReadAnswer(IndexBelow(Len(die)), lines);
      if playerNum.None? {
        score := None;
        return;
      }
      score := Some(Throw(die, playerNum.value, commitment.number));
    }

    /** After both picks each party holds its die and the pool is what Left says. */
    ghost predicate Holds(before: seq<Die>, playerFirst: bool, picks: (Die, Die))
      reads state
    {
      state.playerDie == Some(picks.0) && state.computerDie == Some(picks.1)
      && state.availableDice == Left(before, playerFirst, picks)
    }

    /** The player picks from the whole pool, the computer from what is left. */
    method PlayerPicksFirst(pickDraw: Draw, lines: seq<string>)
      returns (r: Result<(Die, Die)>, rest: seq<string>)
      modifies state
      ensures (r, rest) == Selection(old(state.availableDice), true, pickDraw, lines)
      ensures r.Ok? ==> Holds(old(state.availableDice), true, r.value)
      ensures var p := PlayerChoice(old(state.availableDice), lines).0;
              r.Err? ==>
                && state.computerDie == old(state.computerDie)
                && (p.None? ==> state.playerDie == old(state.playerDie)
                                && state.availableDice == old(state.availableDice))
                && (p.Some? ==> state.playerDie == p
                                && state.availableDice == RemoveFirst(old(state.availableDice), p.value))
    {
      var chosen;
      chosen, rest := PlayerSelectDie(lines);
      if chosen.None? {
        r := Err(EndOfInput);
        return;
      }
      state.playerDie := chosen;
      r := ComputerPicksSecond(chosen.value, pickDraw);
    }

    /** The computer's pick from what the player left, the player holding `chosen`. */
    method ComputerPicksSecond(chosen: Die, pickDraw: Draw) returns (r: Result<(Die, Die)>)
      modifies state
      ensures var c := ComputerChoice(old(state.availableDice), pickDraw);
              r == if c.Err? then Err(c.error) else Ok((chosen, c.value))
      ensures r.Ok? ==> state.playerDie == old(state.playerDie) && state.computerDie == Some(r.value.1)
                        && state.availableDice == RemoveFirst(old(state.availableDice), r.value.1)
      ensures r.Err? ==> state.playerDie == old(state.playerDie) && state.computerDie == old(state.computerDie)
                         && state.availableDice == old(state.availableDice)
    {
      var picked := ComputerSelectDie(pickDraw);
      if picked.Err? {
        r := Err(picked.error);
        return;
      }
      state.computerDie := Some(picked.value);
      r := Ok((chosen, picked.value));
    }

    /** The computer picks from the whole pool, the player from what is left. */
    method ComputerPicksFirst(pickDraw: Draw, lines: seq<string>)
      returns (r: Result<(Die, Die)>, rest: seq<string>)
      modifies state
      ensures (r, rest) == Selection(old(state.availableDice), false, pickDraw, lines)
      ensures r.Ok? ==> Holds(old(state.availableDice), false, r.value)
      ensures var c := ComputerChoice(old(state.availableDice), pickDraw);
              r.Err? ==>
                && state.playerDie == old(state.playerDie)
                && (c.Err? ==> state.computerDie == old(state.computerDie)
                               && state.availableDice == old(state.availableDice))
                && (c.Ok? ==> state.computerDie == Some(c.value)
                              && state.availableDice == RemoveFirst(old(state.availableDice), c.value))
    {
      var picked := ComputerSelectDie(pickDraw);
      if picked.Err? {
        r, rest := Err(picked.error), lines;
        return;
      }
      state.computerDie := Some(picked.value);
      r, rest := PlayerPicksSecond(picked.value, lines);
    }

    /** The player's pick from what the computer left, the computer holding `picked`. */
    method PlayerPicksSecond(picked: Die, lines: seq<string>)
      returns (r: Result<(Die, Die)>, rest: seq<string>)
      modifies state
      ensures var (p, after) := PlayerChoice(old(state.availableDice), lines);
              rest == after && r == if p.None? then Err(EndOfInput) else Ok((p.value, picked))
      ensures r.Ok? ==> state.computerDie == old(state.computerDie) && state.playerDie == Some(r.value.0)
                        && state.availableDice == RemoveFirst(old(state.availableDice), r.value.0)
      ensures r.Err? ==> state.playerDie == old(state.playerDie) && state.computerDie == old(state.computerDie)
                         && state.availableDice == old(state.availableDice)
    {
      var chosen;
      chosen, rest := PlayerSelectDie(lines);
      if chosen.None? {
        r := Err(EndOfInput);
        return;
      }
      state.playerDie := chosen;
      r := Ok((chosen.value, picked));
    }

    /**
     * The selections of start_game: whoever won the coin flip picks first,
     * the other picks from what is left, and each party then holds its die.
     */
    method ChooseDice(playerFirst: bool, pickDraw: Draw, lines: seq<string>)
      returns (r: Result<(Die, Die)>, rest: seq<string>)
      modifies state
      ensures (r, rest) == Selection(old(state.availableDice), playerFirst, pickDraw, lines)
      ensures r.Ok? ==> Holds(old(state.availableDice), playerFirst, r.value)
      ensures (r.Ok? && old(state.Conserved()) && old(state.playerDie) == None
               && old(state.computerDie) == None) ==> state.Conserved()
    {
      ghost var pool := state.availableDice;
      ghost var untouched := state.Conserved() && state.playerDie == None && state.computerDie == None;
      if playerFirst {
        r, rest := PlayerPicksFirst(pickDraw, lines);
      } else {
        r, rest := ComputerPicksFirst(pickDraw, lines);
      }
      if r.Ok? && untouched {
        TookTwoConserves(pool, state.availableDice, r.value.0, r.value.1, state.originalDice);
      }
    }

    /**
     * The two throws of start_game, the player's die first, each reading the
     * lines the previous prompt left.
     */
    method ThrowBoth(playerDie: Die, computerDie: Die, entropy: Entropy, hmac: Mac, lines: seq<string>)
      returns (scores: Option<(int, int)>, rest: seq<string>)
      ensures (scores, rest) == Throws(playerDie, computerDie, entropy, lines)
    {
      var playerCommitment, playerScore, afterPlayer :=
        MakeThrow(playerDie, entropy.playerKey, entropy.playerDraw, hmac, lines);
      if playerScore.None? {
        scores, rest := None, afterPlayer;
        return;
      }
      var computerCommitment, computerScore, afterComputer :=
        MakeThrow(computerDie, entropy.computerKey, entropy.computerDraw, hmac, afterPlayer);
      if computerScore.None? {
        scores, rest := None, afterComputer;
        return;
      }
      scores, rest := Some((playerScore.value, computerScore.value)), afterComputer;
    }

    /**
     * start_game once the coin has decided: the selections, the throws and
     * the comparison.
     */
    method PlayRound(playerFirst: bool, entropy: Entropy, hmac: Mac, lines: seq<string>)
      returns (r: Result<Round>, rest: seq<string>)
      modifies state
      ensures (r, rest) == PlayFrom(old(state.availableDice), playerFirst, entropy, lines)
      ensures r.Ok? ==> Holds(old(state.availableDice), playerFirst, (r.value.playerDie, r.value.computerDie))
      ensures (r.Ok? && old(state.Conserved()) && old(state.playerDie) == None
               && old(state.computerDie) == None) ==> state.Conserved()
    {
      var chosen, afterSelection := ChooseDice(playerFirst, entropy.pickDraw, lines);
      if chosen.Err? {
        r, rest := Err(chosen.error), afterSelection;
        return;
      }
      var (playerDie, computerDie) := chosen.value;
      var scores;
      scores, rest := ThrowBoth(playerDie, computerDie, entropy, hmac, afterSelection);
      if scores.None? {
        r := Err(EndOfInput);
        return;
      }
      var (playerScore, computerScore) := scores.value;
      r := Ok(Round(playerFirst, playerDie, computerDie, playerScore, computerScore,
                    Compare(playerScore, computerScore)));
    }

    /**
     * start_game: the table, the coin flip, the two selections in the order
     * the coin decided, one throw with each die and the comparison.
     */
    method StartGame(entropy: Entropy, hmac: Mac, lines: seq<string>)
      returns (r: Result<Report>, rest: seq<string>)
      modifies state
      ensures var (play, after) := Play(old(state.availableDice), entropy, lines);
              rest == after && (r.Err? <==> play.Err?)
              && (r.Err? ==> r.error == play.error)
              && (r.Ok? ==> r.value.round == play.value)
      ensures r.Ok? ==>
                && |r.value.table| == |state.originalDice|
                && (forall i, j :: 0 <= i < |state.originalDice| && 0 <= j < |state.originalDice| ==>
                      |r.value.table[i]| == |state.originalDice| &&
                      r.value.table[i][j] == TableEntry(state.originalDice, i, j))
      ensures r.Ok? ==> Holds(old(state.availableDice), r.value.round.playerFirst,
                              (r.value.round.playerDie, r.value.round.computerDie))
      ensures (r.Ok? && old(state.Conserved()) && old(state.playerDie) == None
               && old(state.computerDie) == None) ==> state.Conserved()
    {
      var table := GenerateTable(state.originalDice);
      var coin, first, afterGuess := DetermineFirstPlayer(entropy.coinKey, entropy.coinDraw, hmac, lines);
      if first.None? {
        r, rest := Err(EndOfInput), afterGuess;
        return;
      }
      var round;
      round, rest := PlayRound(first.value, entropy, hmac, afterGuess);
      if round.Err? {
        r := Err(round.error);
        return;
      }
      r := Ok(Report(table, round.value));
    }
  }
}
