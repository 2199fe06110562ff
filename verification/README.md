# minesweeper-client, modelled in Dafny

The Go program `minesweeper.go` connects a Minesweeper player to a game
server. The player is either a person at the terminal or an agent program
that the client launches for every game. For each game the client does four things:

- fetches the board parameters from the server (`/info`) and prints them to the player;
- reads the player's first guess, a line `x,y`;
- creates a game on the server (`/new`);
- repeats a reveal step: it reveals the guessed cell (`/open`) and prints the server's reply to the player. A reply that is an integer (the count of neighbouring mines) asks for the next guess. Any other reply ends the game: `win` means it was won, anything else means it was lost.

`PlayGames` plays the requested number of games and counts the wins. Whenever a
request fails, a guess line is malformed or an agent cannot be started, the
program stops with `log.Fatalf`.

The model has seven modules:

- `Wrappers`: `Option` and `Result`.
- `Strings`: Go's `strings.TrimSpace` (with the full `unicode.IsSpace` set) and
  `strings.Split` for a one-rune separator, with their specifications (`Join`,
  `Count`).
- `Strconv`: `strconv.ParseInt(s, 0, 64)` in full, and the decimal rendering `%v` gives an integer:
  - the sign;
  - the `0b`, `0o`, `0x` and bare-`0` base prefixes;
  - `_` digit separators, accepted under Go's `underscoreOK` rule;
  - the 64-bit range.
- `Streams`: the bound input and output as text. `ReadLine` is `ReadString('\n')` with
  its error dropped. `Lines` is what successive `Fprintln` calls write.
- `Protocol`: the pure parts of one turn. `ParseTarget` is `GetTarget`'s
  parsing and `Classify` is the reply test. `Request` holds the HTTP requests
  sent, as URLs and form values.
- `Game`: the whole behaviour as functions of the environment:
  - `Reveal` is the reveal loop and `Play` is `PlayGame`;
  - `PlayMatch` is `PlayGames` on either channel. It takes the single game as a parameter, so that its lemmas hold for any player;
  - the environment is the input text, the queue of server responses and the queue of what each agent will write.

  The lemmas state what the program promises: requests, lines read, lines printed, the tally and failures.
- `Client`: the program's global state as the fields of one object:
  - `CurrentGameID`;
  - the bound `Stdin` and `Stdout`;
  - the server queue;
  - the request log;
  - the agents still to be launched.

  Its methods are the Go functions, written step by step with the same loops. `PlayGame` and `PlayGames` are proved to end in exactly the state that `Game.Play` and `Game.PlayMatch` describe, so every lemma about those functions holds of the methods.

Here the model follows the code where a prose description would read
otherwise. A move line is trimmed only at its two ends, and its fields are not trimmed. So `"3, 4"`
is rejected as not an integer, and only `"3,4"` with spaces around the whole line is accepted
(`Protocol.ParseTargetInnerSpaceExample`, `Protocol.ParseTargetOfFields`).

## Model

| member | source | states |
|---|---|---|
| Streams.ReadLine | minesweeper.go:26-30 | the line read is everything up to and including the first newline, or all that is left when there is none. Line and rest concatenate to the input; at end of input the line is empty |
| Streams.LinesAppend | minesweeper.go:33-35 | the output of successive PrintOut calls is the output of each in turn |
| Strings.TrimLeftSpec | minesweeper.go:67 | left trimming removes exactly the leading spaces: the result is a suffix, what was dropped is all space, and the result does not start with a space |
| Strings.TrimRightSpec | minesweeper.go:67 | right trimming removes exactly the trailing spaces, symmetrically |
| Strings.TrimSpaceTrimmed | minesweeper.go:67 | TrimSpace leaves no space at either end |
| Strings.TrimSpaceOfPadded | minesweeper.go:67 | for a text with no space at its ends, any surrounding spaces are trimmed back to exactly that text |
| Strings.IndexOfSpec | minesweeper.go:67 | IndexOf finds the first separator: it is at the index, and none comes before it |
| Strings.SplitSpec | minesweeper.go:67 | joining Split's pieces with the separator gives the text back, and no piece contains the separator |
| Strings.SplitLength | minesweeper.go:67-68 | Split gives one more piece than there are separators |
| Strings.SplitJoin | minesweeper.go:67 | splitting a join of separator-free pieces gives those pieces back |
| Strings.SplitPair | minesweeper.go:67-68 | a text with one separator splits into exactly the two pieces around it |
| Strconv.ParseInt | minesweeper.go:72-73 | an accepted literal's value is a 64-bit integer. That values outside the range are rejected is stated by `Strconv.ParseFormatRoundTrip` |
| Strconv.ParseIntAlphabet | minesweeper.go:72-73 | ParseInt accepts only non-empty texts made of digits, letters, `_`, `+` and `-`, so never one containing a space |
| Strconv.MagnitudeAlphabet | minesweeper.go:72-73 | the same for the unsigned part |
| Strconv.FormatNatDigits | minesweeper.go:84-85 | `%v` of a natural number is all decimal digits, with a leading zero only for zero |
| Strconv.AccumulateFormatNat | minesweeper.go:84-85 | the digits `%v` writes, read back in base 10, give the number |
| Strconv.ParseMagnitudeFormatNat | minesweeper.go:84-85 | `%v` of a natural number is read back by base-0 parsing as that number. `0` reads as octal zero |
| Strconv.ParseFormatRoundTrip | minesweeper.go:72-85 | every 64-bit integer rendered with `%v` is read back by ParseInt(…, 0, 64) as the same integer. Every integer outside the 64-bit range, rendered the same way, is rejected with a range error |
| Strconv.ParseIntDecimalExamples | minesweeper.go:72-73 | `42`, `+7` and `-3` are read as their values. The empty text, a bare sign and a trailing space are rejected |
| Strconv.ParseIntOctalExamples | minesweeper.go:72-73 | a bare leading zero means octal: `010` is 8, `0` is 0, and `08` is rejected |
| Strconv.ParseIntHexExample | minesweeper.go:72-73 | `0x1F` is 31, and a prefix with no digits is rejected |
| Strconv.ParseIntBinaryExample | minesweeper.go:72-73 | `0B101` is 5 |
| Strconv.ParseIntOctalPrefixExample | minesweeper.go:72-73 | `-0o17` is -15 |
| Strconv.ParseIntDigitSeparator | minesweeper.go:72-73 | `1_000` is 1000 |
| Strconv.ParseIntPrefixSeparator | minesweeper.go:72-73 | `0x_1` is 1: an underscore may follow a base prefix |
| Strconv.ParseIntMisplacedUnderscores | minesweeper.go:72-73 | a leading, doubled or trailing underscore is rejected |
| Protocol.ParseTarget | minesweeper.go:65-80 | an accepted guess has two 64-bit coordinates |
| Protocol.ParseTargetShape | minesweeper.go:67-70 | a line is rejected as malformed exactly when its trimmed text does not hold exactly one comma |
| Protocol.ParseTargetOfFields | minesweeper.go:67-79 | a line made of spaces, field, comma, field and spaces gives the two fields' values, or the not-an-integer error when either field is not a literal |
| Protocol.ParseTargetNoInnerSpace | minesweeper.go:67-79 | an accepted line has no space left inside its trimmed text |
| Protocol.FormatIntChars | minesweeper.go:84-85 | `%v` of an integer is non-empty, has no comma and neither starts nor ends with a space |
| Protocol.ParseTargetOfLiterals | minesweeper.go:67-79 | two literals around a comma, followed by end-of-line spaces, are read as their values |
| Protocol.ParseTargetFormatRoundTrip | minesweeper.go:65-80 | a guess whose coordinates are written the way OpenCell writes them, plus any end-of-line spaces, is read back as the same guess when both coordinates fit in 64 bits. When either does not, the line is rejected as not an integer |
| Protocol.ParseTargetNewlineExample | minesweeper.go:65-80 | `3,4` followed by a newline is the guess (3, 4) |
| Protocol.ParseTargetInnerSpaceExample | minesweeper.go:67-77 | `3, 4` is rejected as not an integer, because fields are not trimmed |
| Protocol.ParseTargetThreeFieldsExample | minesweeper.go:67-70 | `3,4,5` is rejected as malformed |
| Protocol.ParseTargetRejectExamples | minesweeper.go:67-77 | `x,4` is not an integer, and the empty line is malformed |
| Protocol.ClassifySpec | minesweeper.go:120-127 | a reply continues the game exactly when ParseInt accepts it, and then carries its value. It is a win exactly when it is `win`, and a loss exactly when it is neither |
| Protocol.ClassifyFormat | minesweeper.go:120-127 | a reply that is an integer written in decimal continues the game with that count when it fits in 64 bits. An out-of-range count is a loss |
| Protocol.ClassifyExamples | minesweeper.go:120-127 | `2` and `0x2` continue the game. `win` wins. `win` or `2` followed by a newline, and `boom`, lose |
| Protocol.OpenRequestCarriesMove | minesweeper.go:83-91 | the form of a reveal carries the game id, and its `x` and `y` fields read back as the guess |
| Protocol.OpenIsNotNew | minesweeper.go:86-91 | a reveal request is never a game-creation request |
| Game.MoveConsumesInput | minesweeper.go:26-30 | reading a line that parses as a guess consumes input, so the reveal loop runs out of input |
| Game.OpenRequests | minesweeper.go:83-91 | the reveal requests for a list of guesses, one per guess and in order |
| Game.ReadsConsume | minesweeper.go:26-30 | the lines read, followed by what is left, give back the input |
| Game.RevealRequests | minesweeper.go:113-130 | the loop sends exactly one reveal per guess, in order, starting with its first guess |
| Game.RevealReads | minesweeper.go:113-130 | the loop's lines are read one after the other from its input |
| Game.RevealLineCount | minesweeper.go:113-130 | the loop reads one line per guess after the first, plus one if the last line was rejected |
| Game.RevealLines | minesweeper.go:113-130 | every guess after the first is what the parser made of the line read just before it |
| Game.RevealRejected | minesweeper.go:113-130 | a loop stopped by a bad line stops on the last line read, with the parser's error for it |
| Game.RevealPrinted | minesweeper.go:115-116 | the loop prints the server's replies unchanged, in order, and consumes exactly those |
| Game.RevealPrintedCount | minesweeper.go:113-130 | one reply is printed per reveal, except for a reveal whose request failed |
| Game.RevealReplies | minesweeper.go:118-129 | every reply but the last is a count. A stop on a bad line always comes right after a count. A finished loop ends on a reply that is not a count, and the game is won exactly when that reply is `win` |
| Game.ThenReplies | minesweeper.go:118-129 | one continuing round in front of the rest of the loop keeps that property |
| Game.PlayCreates | minesweeper.go:101-111 | the info request always comes first. The game is created exactly when the first line is a guess. A game that was not created reveals nothing |
| Game.PlayRequests | minesweeper.go:101-130 | after the creation come the reveals of the guesses in order, under the id the server gave. The first guess is the first line's |
| Game.PlayCreatesOnce | minesweeper.go:101-130 | each game creates at most one server game, and only as its second request |
| Game.PlayLines | minesweeper.go:101-130 | a game reads its lines one after the other from its input, and each guess revealed is what the parser made of the line in the same place |
| Game.PlayLineCount | minesweeper.go:101-130 | a finished game read exactly one line per reveal. A game stopped by a bad line read one more, and the parser rejected that line |
| Game.ThenLineCount | minesweeper.go:108-111 | the first line in front of the loop turns the loop's line count into the game's |
| Game.PlayPrinted | minesweeper.go:101-130 | a game prints the info blob and then the replies, unchanged and in order, but never the game id. A finished game printed one reply per reveal |
| Game.PlayReplies | minesweeper.go:113-127 | a finished game went on exactly while replies were counts. Its last reply is not a count, and it was won exactly when that reply is `win` |
| Game.CountsAfter | minesweeper.go:113-127 | counts before the last reply stay so when a line is put in front |
| Game.PlayEndOfInput | minesweeper.go:26-30 | at end of input the empty line read is not a guess, so the game stops as malformed before it is created |
| Game.RevealEndOfInput | minesweeper.go:26-30 | likewise inside the loop: once input is exhausted, a count reply ends the game fatally |
| Game.Wins | minesweeper.go:135-151 | no more wins than games |
| Game.PlayMatchGames | minesweeper.go:135-151 | a match that completes plays exactly `howMany` games (none when that is not positive), and none of them failed |
| Game.PlayMatchTally | minesweeper.go:135-151 | a completed match returns the number of its games that were won |
| Game.PlayMatchBound | minesweeper.go:135-151 | a completed match wins at most `howMany` games, and a match asked for no games (`howMany` not positive) returns 0 |
| Game.PlayMatchAbort | minesweeper.go:135-165 | a match that fails had started and played at most `howMany` games, every one but the last finished, and either the last game is the one that failed or no agent was left to launch |
| Game.AfterStops | minesweeper.go:137-151 | a finished game in front of a failed rest keeps that property |
| Game.SentAppend | minesweeper.go:137-151 | the requests of the games, one more game at a time |
| Game.WinsAppend | minesweeper.go:145-147 | one more game adds one to the tally exactly when it was won |
| Game.PlayMatchChannels | minesweeper.go:138-143 | agent games leave the terminal alone and use up exactly one agent per game played. Terminal games show every line they print on the terminal and launch nothing |
| Game.PlayMatchChain | minesweeper.go:137-147 | the games of a match are chained. Game `k` is the single game played on the `k`-th agent's output, or on the terminal on what game `k - 1` left of the input. It gets the server responses game `k - 1` left. The match ends where its last game left the server and the terminal |
| Game.AfterChained | minesweeper.go:137-147 | a game played where the match stands, put in front of a rest that is chained from where that game left off, keeps the match chained |
| Client.Client.constructor | minesweeper.go:18-23 | the globals start with no game id and nothing sent, with the terminal holding the given input. `Stdin` and `Stdout` start on the terminal; in Go they are nil until `PlayGames` binds them before any use |
| Client.Client.ReadIn | minesweeper.go:26-30 | takes exactly the next line, as ReadLine cuts it, from the bound input |
| Client.Client.PrintOut | minesweeper.go:33-35 | appends the line and a newline to the bound output |
| Client.Client.GameInfo | minesweeper.go:38-47 | sends the info request. It gives the next response body, or nothing when the request fails |
| Client.Client.NewGame | minesweeper.go:50-62 | sends the creation request with the player's name and version. It succeeds exactly when the server answers, and then keeps the body as the game id |
| Client.Client.GetTarget | minesweeper.go:65-80 | reads one line and returns what ParseTarget makes of it |
| Client.Client.OpenCell | minesweeper.go:83-98 | sends the reveal request for the guess under the current id. It gives the next response body, or nothing when the request fails |
| Client.Client.PlayGame | minesweeper.go:101-132 | its outcome, input consumed, responses consumed, requests sent, output printed and game id are exactly those of `Game.Play` on its input and the server's responses |
| Client.Client.LaunchAI | minesweeper.go:155-165 | succeeds exactly when an agent is left. It then binds a fresh input carrying that agent's output and a fresh, empty output, and uses the agent up |
| Client.Client.PlayNext | minesweeper.go:138-147 | one round: when the channel can be bound, exactly one `Game.Play` on the channel's next input, with its effects on terminal, agents, server and request log. Otherwise nothing happens |
| Client.Client.PlayGames | minesweeper.go:135-152 | its result, terminal input consumed, terminal output, agents, responses and requests sent are exactly those of `Game.PlayMatch` |

## Left out

- HTTP itself is not modelled:
  - a request either yields the next response body from the server queue or fails in transport;
  - status codes, headers and body-read errors are not modelled, and the body that `ioutil.ReadAll` returns is taken whole;
  - the request log records URL and form.
- `log.Fatalf` ends the process. Here it is the `Fatal` outcome of a game and the `Err` result of `PlayGames`; the message text is not modelled.
- `ReadIn` makes a new `bufio.Reader` on every call, which can swallow input beyond the first line when more than one line is already waiting. The model reads exactly one line per call and does not model that loss, which depends on how the operating system delivers the bytes.
- Process spawning and pipes are not modelled. An agent is the text it will write. What the client writes to an agent is recorded, but it does not influence what the agent writes.
- Strings are sequences of runes. Invalid UTF-8 in a line is not modelled.
- `Strconv.ParseInt`: syntax errors and range errors are both `None`, because the program treats every error from `strconv.ParseInt` the same way.
- `main` is not modelled: flag parsing, the required `-name` check, and the final summary line, which reports the `-games` value as the number played.
- The unreachable `return false` after the `for true` loop in `PlayGame` has no counterpart in the model.
