# Provably fair dice game: a Dafny model of its rules

The game (`Task3/game.py`) pits a player against the computer with a set of
at least three dice, usually non-transitive ones. Before the coin flip and
before each throw, the computer draws a random number and shows an HMAC of
it under a fresh key. It reveals the number and the key only after the
player has answered. The computer's own die pick is a plain uniform draw
with no commitment. The steps are:

1. A probability table shows, for every pair of dice, how often the first
   beats the second.
2. A coin flip decides who picks first. The player guesses the committed
   bit, and picks first on a correct guess.
3. The two parties pick dice from a shared pool. Removal from the pool goes
   by value.
4. Each party rolls its die. The player adds a number to the computer's
   committed number, modulo the number of faces, and the face at that index
   is the score. The model reads that face through `Dice.Face`, as the source
   reads `die[result]`.
5. The higher score wins; equal scores tie.

The model follows the source class by class, one Dafny module each:

- `CryptoProvider` reduces a 32-bit draw modulo `maxValue + 1`.
- `FairNumberGenerator` builds a commitment with the keyed hash as a
  parameter.
- `Dice` holds a die: a non-empty face sequence, as a subset type.
- `TableGenerator` holds the pair counts behind the table and the method
  that builds it.
- `GameStates` holds the `GameState` class, whose pool is a `seq` the
  methods reassign.
- `Game` holds the rules and the `GameController` class, whose methods
  change the state in place.

Two helper modules sit beside these. `Text` models Python's `strip`,
`isdigit`, `int` and `str` on ASCII. `Arithmetic` holds facts about
division.

Console input becomes a sequence of lines. A prompt reads lines until one
is valid, as the source's retry loops do. Randomness becomes parameters:
each 16-byte key and each four-byte draw. The keyed hash is a function
parameter.

Two behaviours of the code differ from what a reader might expect, and the
model keeps them:

- The table's diagonal rule goes by position (`i == j`), not by die
  equality. Two identical dice at different positions get a computed entry
  whose ratio is strictly below one half (`DuplicateDiceBelowHalf`). Its
  two-decimal display can still read 0.50: two copies of a die with 101
  distinct faces give 5050/10201, which shows as "0.50".
- A contribution to a throw is accepted when its stripped text passes
  `isdigit` and its value is below the die size. So `"03"` and `" 3 "` are
  accepted. The coin guess, by contrast, must read exactly `0` or `1`: `"00"`
  is refused (`GuessTokenIsExact`).

## Model

| member | source | states |
|---|---|---|
| CryptoProvider.UniformRandom | Task3/game.py:9-12 | a negative bound is InvalidRange; otherwise the result lies in [0, maxValue] and is congruent to the draw modulo maxValue + 1 |
| CryptoProvider.UniformRandomSmallDraw | Task3/game.py:12 | a draw already in [0, maxValue] is returned unchanged |
| CryptoProvider.HitsCount | Task3/game.py:12 | among the draws below n, each value v is produced by n/(maxValue+1) draws, plus one when v is below the remainder |
| CryptoProvider.UniformRandomNearlyUniform | Task3/game.py:12 | over all 2^32 draws, two results differ in frequency by at most one draw |
| CryptoProvider.UniformRandomExactWhenDividing | Task3/game.py:12 | when maxValue + 1 divides 2^32, every result is produced by exactly the same number of draws |
| FairNumberGenerator.GenerateFairNumber | Task3/game.py:18-22 | error exactly for a negative bound; otherwise the number is in range, it is the uniform draw's result, the key is kept, and the digest recomputes from key and number |
| FairNumberGenerator.MessageInjective | Task3/game.py:21 | different numbers give different hashed messages str(number).encode() |
| FairNumberGenerator.RevealIsBinding | Task3/game.py:19-21 | with a collision-free hash under the key, the only number that verifies against the shown digest is the committed one |
| Text.Strip | Task3/game.py:128 | the stripped line neither starts nor ends with whitespace and is no longer than the line |
| Text.TrimStartSuffix | Task3/game.py:128 | what the leading trim keeps is a suffix of the line, and every character it drops is whitespace |
| Text.TrimEndPrefix | Task3/game.py:128 | what the trailing trim keeps is a prefix of its input, and every character it drops is whitespace |
| Text.StripSpan | Task3/game.py:153 | strip() returns a slice s[i..j] of the line, everything before i and everything from j on is whitespace |
| Text.StripKeeps | Task3/game.py:153 | a line without surrounding whitespace is left as it is |
| Text.NatToDecimal | Task3/game.py:21 | str(n) is a non-empty digit string that starts with '0' exactly when n is 0 |
| Text.DecimalRoundTrip | Task3/game.py:174 | int(str(n)) == n |
| Text.NatToDecimalInjective | Task3/game.py:21 | str is injective on non-negative numbers |
| Text.DecimalCanonical | Task3/game.py:157 | str(int(s)) == s for a digit string without a leading zero |
| Text.Encode | Task3/game.py:21 | encoding ASCII text gives one byte per character, with the character's code |
| Text.EncodeInjective | Task3/game.py:21 | different ASCII strings encode to different bytes |
| Dice.NewDie | Task3/game.py:25-28 | an empty face list is EmptyDie; otherwise the die has exactly the given faces |
| Dice.Len | Task3/game.py:30-31 | a die has at least one face, and its length is the face count |
| Dice.Face | Task3/game.py:33-34 | die[index] is a face of the die, counting from the end for a negative index |
| Dice.EqualIsStructural | Task3/game.py:39-42 | `Equal`, the model of `__eq__` that the pool search uses, holds exactly when the two dice are the same value |
| TableGenerator.Wins | Task3/game.py:60 | the number of winning face pairs is at most the number of all pairs |
| TableGenerator.PairsPartition | Task3/game.py:60-61 | wins, losses and ties together count every pair, len(die1) * len(die2) |
| TableGenerator.WinsSwap | Task3/game.py:60 | B's wins over A are A's losses to B, and ties are symmetric |
| TableGenerator.WinsComplement | Task3/game.py:59-62 | wins(A,B) + wins(B,A) + ties(A,B) == len(A) * len(B) |
| TableGenerator.SelfWinsBelowHalf | Task3/game.py:52-53 | computed against an identical die, a die wins strictly fewer than half the pairs |
| TableGenerator.CalculateProbability | Task3/game.py:58-62 | the entry is the winning-pair count over a positive total len(die1) * len(die2), and the count never exceeds the total |
| TableGenerator.DiagonalIsHalf | Task3/game.py:52-55 | about `TableEntry`, the cell rule that goes by position: the diagonal entry is one half whatever the faces |
| TableGenerator.OppositeEntries | Task3/game.py:51-55 | entries (i, j) and (j, i) share a denominator, and their numerators plus the ties equal it |
| TableGenerator.DuplicateDiceBelowHalf | Task3/game.py:49-55 | two identical dice at different positions get a computed entry below one half |
| TableGenerator.GenerateTable | Task3/game.py:46-56 | the table is square in the number of dice, with one half on the diagonal and the computed entry elsewhere |
| GameStates.IndexOf | Task3/game.py:72 | no position exactly when the die is not in the pool; otherwise the first position holding an equal die |
| GameStates.RemoveFirst | Task3/game.py:71-73 | the pool is unchanged when the die is absent; otherwise only the first equal die is deleted and the others keep their order |
| GameStates.RemoveFirstCounts | Task3/game.py:71-73 | removing a die in the pool shortens it by one and takes out one copy of that die |
| GameStates.RemoveTwo | Task3/game.py:96-103 | after two selections the pool is two dice shorter, and those two dice are what left it |
| GameStates.TookTwoConserves | Task3/game.py:96-103 | when two dice leave a pool that holds every die for the parties' hands, every die is still in exactly one place |
| GameStates.RemoveByValueMatchesIndex | Task3/game.py:157-158 | picking position i and removing by value leaves the same dice as deleting position i, and the same sequence when no equal die comes earlier |
| GameStates.RemoveByValueReorders | Task3/game.py:142-143 | with the pool [a, b, a], choosing position 2 leaves [b, a], not [a, b] |
| GameStates.GameState.constructor | Task3/game.py:65-69 | the pool starts as the original dice, nobody holds a die, and every die is accounted for |
| GameStates.GameState.SelectDie | Task3/game.py:71-73 | the pool loses its first equal die, or stays as it is, and the selections are untouched |
| GameStates.GameState.Reset | Task3/game.py:75-78 | the pool equals the original dice again, both selections are cleared, and the original dice are unchanged |
| Game.Parse | Task3/game.py:153-154 | an accepted guess is 0 or 1, and an accepted selection is below the bound |
| Game.ParseMeaning | Task3/game.py:128-132 | a guess is accepted with value v exactly when v is 0 or 1 and the stripped line is str(v); a selection (the same test at lines 153-154 and 170-171) is accepted with value v exactly when the stripped line is a digit string of value v and v is below the bound |
| Game.ParseAcceptsEveryValue | Task3/game.py:171-174 | every value the prompt allows is accepted when typed as its decimal text |
| Game.ParseEmptyPoolRejects | Task3/game.py:152-156 | with an empty pool no selection is ever accepted |
| Game.GuessTokenIsExact | Task3/game.py:129-132 | "00" is refused as a guess but read as 0 as a selection |
| Game.FirstAnswer | Task3/game.py:169-174 | the answer, when there is one, is in the prompt's range, and the lines left are a suffix of the input |
| Game.FirstAccepted | Task3/game.py:152-159 | the lines left after a retry loop are a suffix of its input |
| Game.NoAnswerRefusesAll | Task3/game.py:152-156 | with no answer, every line was refused and every line was consumed |
| Game.AnswerIsFirstValid | Task3/game.py:127-134 | the answer is the value of the first accepted line, and every line before it was refused |
| Game.NoAnswerMeansAllRefused | Task3/game.py:152-156 | there is no answer exactly when every line is refused |
| Game.ReadAnswer | Task3/game.py:152-156 | the retry loop returns the first valid line's value and the lines after it |
| Game.MakeDice | Task3/game.py:86 | an error exactly when some face list is empty; otherwise one die per list with those faces |
| Game.BuildDice | Task3/game.py:82-86 | TooFewDice below three dice, else EmptyDie when a list is empty, else at least three dice with the given faces |
| Game.CoinFlipIsFair | Task3/game.py:123-134 | for either guess, exactly half of all draws let the player choose first |
| Game.ThrowIndex | Task3/game.py:175 | the combined index lies within the die |
| Game.Partner | Task3/game.py:175 | for one side's number and a target index, there is a number below the size that lands on the target |
| Game.ThrowIndexUnique | Task3/game.py:175 | for a fixed number of one side, each index is reached by exactly one number of the other side |
| Game.ThrowHitsArePartnerHits | Task3/game.py:162-175 | the draws landing on an index are exactly the draws that produce its partner number |
| Game.ThrowNearlyUniform | Task3/game.py:162-178 | whatever valid number the player adds, two face indices differ in frequency by at most one draw |
| Game.Throw | Task3/game.py:175-178 | the score is a face of the die |
| Game.SingleFaceThrow | Task3/game.py:175-178 | a one-face die always scores its face |
| Game.Compare | Task3/game.py:115-120 | the player wins exactly when its score is higher, loses exactly when it is lower, and ties exactly when they are equal |
| Game.CompareMirror | Task3/game.py:115-120 | exchanging the scores exchanges winner and loser and keeps a tie |
| Game.ComputerChoice | Task3/game.py:136-143 | an empty pool is NoDiceAvailable and nothing else is an error; the chosen die is one of the pool's |
| Game.PlayerChoice | Task3/game.py:146-159 | a die is chosen exactly when some line gives a valid index below the pool size; the chosen die is one of the pool's, and the lines left are those after the first valid line |
| Game.EmptyPoolNoChoice | Task3/game.py:152-156 | with an empty pool nothing is chosen and every line is consumed |
| Game.Selection | Task3/game.py:96-103 | the lines left are a suffix of the input; failure comes only from running out of lines or from a pool of fewer than two dice; on success both dice left the pool one copy each, and when the player goes first its die is the player's choice from the whole pool and the computer's die the computer's choice from what is left, the other way round otherwise |
| Game.PickOrderMatters | Task3/game.py:96-103 | with the pool [a, b, c], draw 0 and the line "0", the player gets a when choosing first and b when choosing second, while the computer gets b and a |
| Game.Roll | Task3/game.py:161-178 | a score exists exactly when some line gives a valid number below the die size; the score is a face of the die, the throw of the first valid number against the uniform draw below the size, and the lines left are those after that line |
| Game.Throws | Task3/game.py:109-110 | both scores are faces of their dice; the player's is the roll of the player's die on the input, the computer's the roll of the computer's die on the lines the player's roll left |
| Game.PlayFromSound | Task3/game.py:96-120 | about `PlayFrom`, the round once the coin has decided: a round fails only when the lines run out or the pool has fewer than two dice; a finished round keeps the coin's order, its dice are the selection in that order and left the pool, its scores are the throws on the lines the selection left, each a face of its die, and the outcome compares them |
| Game.PlaySound | Task3/game.py:94-134 | about `Play`, the coin flip followed by the round: without a valid guess the game ends with EndOfInput; a finished game had a valid guess, and the player chose first exactly when that guess equals the uniform bit |
| Game.GameController.constructor | Task3/game.py:81-87 | once the checks pass, the state holds the built dice as original and available, with no selections |
| Game.GameController.Create | Task3/game.py:81-87 | construction fails exactly when the checks fail, with their error; otherwise the game starts from the built dice |
| Game.GameController.DetermineFirstPlayer | Task3/game.py:122-134 | the bit is committed before any line is read; the player goes first exactly when the first valid guess equals it |
| Game.GameController.ComputerSelectDie | Task3/game.py:136-144 | the result is the computer's choice from the pool as it was; a chosen die leaves the pool by value, an error leaves the pool as it was, and the selections are untouched |
| Game.GameController.PlayerSelectDie | Task3/game.py:146-159 | the result and the lines left are the player's choice from the pool as it was; a chosen die leaves the pool by value, without a valid line the pool is unchanged, and the selections are untouched |
| Game.GameController.MakeThrow | Task3/game.py:161-178 | the number is committed below the die size by the fair generator, and the score and the lines left are the roll of the die on that draw and the input |
| Game.GameController.PlayerPicksFirst | Task3/game.py:96-99 | the dice and the lines left are the selection with the player first; on success the player holds its die, the computer holds its die, and the pool is what remains after both left in that order; on failure the computer holds nothing new, and the player holds its die and it left the pool exactly when the player chose one |
| Game.GameController.ComputerPicksSecond | Task3/game.py:99 | the computer's die is its choice from the pool as it was, an empty pool is that choice's error, on success the computer holds the die and it left the pool, and on failure the state is unchanged |
| Game.GameController.ComputerPicksFirst | Task3/game.py:100-103 | the dice and the lines left are the selection with the computer first; on success both parties hold their dice and the pool is what remains after both left in that order; on failure the player holds nothing new, and the computer holds its die and it left the pool exactly when the pool was not empty |
| Game.GameController.PlayerPicksSecond | Task3/game.py:103 | the player's die and the lines left are its choice from the pool as it was, running out of lines is EndOfInput, on success the player holds the die and it left the pool, and on failure the state is unchanged |
| Game.GameController.ChooseDice | Task3/game.py:96-103 | the dice and the lines left are the selection in the coin's order; each party then holds its die, the pool is what remains after both left, and every die is still in exactly one place |
| Game.GameController.ThrowBoth | Task3/game.py:109-110 | the scores and the lines left are the two throws, the player's die first |
| Game.GameController.PlayRound | Task3/game.py:96-120 | the result and the lines left are the round played in the coin's order; on success each party holds its die, the pool is what remains, and every die is still in exactly one place |
| Game.GameController.StartGame | Task3/game.py:89-120 | the result and the lines left are the game: the coin flip, then the round; the table covers the original dice; on success each party holds its die, the pool is what remains, and every die is still in exactly one place |

## Left out

- The entropy source (`os.urandom`) is left out. Each key and each four-byte draw is a parameter.
- HMAC-SHA256 is a function parameter. Its hiding property is not modelled. Binding is proved only for a reveal under the same key and only for a hash without collisions under that key.
- The hex encoding of the digest and the key for display is not modelled.
- All console output is left out: the table's text, the die listings and the messages.
- The float division and two-decimal formatting of a table entry are left out. An entry keeps the integer numerator and denominator.
- `parse_dice_input` and `main` are not part of this model. They are command-line parsing, `sys.exit` and Python's `int()` on arbitrary text. Their empty-list check can never be reached, because `split(',')` never returns an empty list.
- Non-ASCII behaviour of `strip()` and `isdigit()` is left out. `isdigit()` accepts Unicode digits such as superscripts that `int()` then rejects; the model treats both calls as ASCII.
- When the input runs out, Python's `input()` raises `EOFError` and the program stops. The model returns `EndOfInput` instead. A keyboard interrupt is not modelled.
- `Die.__eq__` against an object that is not a die (it returns False) is not modelled. Only dice are compared.
- `Die.__repr__` is display only.
- Parse: Python's `int()` raises `ValueError` on a digit string longer than its int-string conversion limit (4300 digits by default in CPython 3.11 and later and in some 3.7-3.10 security releases; leading zeros count), and `main`'s handler then ends the game. The model has no such limit and reads such a line by its value: it refuses the line when the value reaches the bound and accepts it otherwise, so 4301 zeros read as 0. The same holds for `FirstAnswer`, `PlayerChoice`, `Roll` and `EmptyPoolNoChoice`, whose "every line is consumed" assumes no such line.
- Face: its requires excludes an index outside the die, where `die[index]` raises `IndexError`. Every call in the game indexes within the die, so no behaviour is lost.
- ChooseDice, PlayRound, StartGame: the state after a game that stops early (EndOfInput or NoDiceAvailable) is not stated; in the source such a game ends with an exception and its state is never used again.
- PlayFromSound: the lines a finished round leaves are given through `Play` and `PlayFrom` but are not proved to be a suffix of the input; that is proved for each prompt (`FirstAnswer`) and for the selections (`Selection`).
- Aliasing of Python lists is not modelled. `GameState.original_dice` is the caller's list and a die copies its faces. Dafny sequences are values, and nothing in the game mutates those lists, so no behaviour is lost.
