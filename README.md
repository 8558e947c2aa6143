# Chess by voice: a Dafny model of the page's turn logic

CHESS_VOICE is a browser page. The player moves by dragging pieces on a board or by speaking
squares ("e two e four"). A UCI chess engine running in a worker answers every move. This
project models the page's script, `app.js`, in Dafny:

- **Voice-move parser** (`parseVoiceMove`, module `VoiceParser`).
  - A fixed, ordered table of 15 literal substitutions repairs speech-recognition mistakes
    ("for" to "4", "see" to "c", and so on). Each one is a global regular-expression replace
    whose key has no metacharacters. That is the same as a literal replace-all that scans left
    to right, never overlaps matches and never rescans inserted text (`Strings.ReplaceAll`).
  - A filter then keeps only `a`-`h` and `1`-`8`.
  - The first four surviving characters become the source and target squares.
  - `CleanTranscript` is the source's loop, written as a loop that reassigns the working string
    once per table entry. `Normalize` is the same computation as a left fold.
- **Engine protocol** (module `EngineProtocol`).
  - To ask for a move, the page sends `position fen <fen>` and then `go depth 12`.
  - It reads the engine's `bestmove <move>` line by splitting on single spaces. In the second
    field, the first two characters are the source square and the next two the target.
  - `Split` and `Substring` (module `Strings`) follow JavaScript's `split(" ")` and
    `substring(i, j)` for `0 <= i <= j` (the only form `app.js` uses), including empty fields
    and bounds clamped to the string's length.
- **Turn logic** (module `Game`).
  - The page's globals are the fields of a class `Session`: the game, the position shown on
    the board, the status line, everything spoken, every engine command sent, the move
    requests scheduled, and whether the engine's message handler is installed.
  - Each event handler (`onDrop`, `handleMove`, `parseVoiceMove`, `makeBestMove`, the
    engine's `onmessage`) is a method.
  - Each method is proved equal to a step function on a snapshot of those fields (`Page`).
    The properties are lemmas about the step functions.
  - The rules engine (chess.js) is a value of type `Rules<S>`. It holds four functions of an
    abstract position type `S`: try a move, serialise the position, game over, checkmate.
    Nothing about chess legality is assumed.
- **Worked examples** (module `VoiceExamples`): "before", "e two e four" with any two files,
  typed "e2e4", and coordinate text holding "be".

### Behaviour of app.js worth knowing

The model follows the code in each of these cases.

- **Substring matching, not whole words.** The substitutions match anywhere in the text, not
  whole words only. Text that is already made of coordinate characters is therefore not
  always left alone. Any "be" inside it becomes "b", so `[a] + "be" + [d]` (for example
  "abe1") normalises to three characters and is no longer a move
  (`VoiceExamples.CoordinateTextWithBe`). The table also contains "be" and "bee", which are
  themselves coordinate text.
- **The longer words come too late in the table.**
  - The entry "before" can never fire: "for" has already been rewritten everywhere
    (`VoiceParser.BeforeNeverFires`).
  - Spoken "before" becomes "b4e", not "b4" (`VoiceExamples.SpokenBefore`).
  - The entry "too" can never fire either, because "to" comes first
    (`VoiceParser.TooNeverFires`).
- **A word can survive its own entry.** A replacement that lands just before the rest of its
  word joins up with it after the scan has moved on: the entry "be" turns "bbee" into "bbe",
  and the entry "bee" turns "bbeeee" into "bbee" (`VoiceExamples.BeSurvivesItsEntry`,
  `VoiceExamples.BeeSurvivesItsEntry`). Entries whose value shares no letter with their word
  always remove it (`VoiceParser.EntryLeavesNoWord`).
- **Engine replies are not tied to requests.**
  - There are no sequence numbers. Once a request has been sent, every later `bestmove` line
    is played, whichever request it answers (`Game.EngineMovePlayed`).
  - The page does not check the rules engine's verdict on the engine's move. It announces the
    move and sets "Your turn!" even when the rules engine rejects it.
- **The end of the game is not a state.** Only the scheduled request checks whether the game
  is over. Moves dragged or spoken afterwards still go to the rules engine.
- **A missing move field throws.** On a `bestmove` line with no second field, `split(" ")[1]`
  is undefined, so the handler throws before it changes anything. The model reads such a line
  as `Unparsable`, and the handler then changes nothing.

## Model

| member | source | states |
|---|---|---|
| Strings.ReplaceAll | app.js:63 | the global literal replace: scans left to right, replaces each match and resumes after it, copies every other character |
| Strings.InsertedNotRescanned | app.js:63 | text a replacement inserts is never scanned again: replacing a key by two copies of itself doubles it once |
| Strings.ReplaceAllAbsent | app.js:63 | replacing a key that does not occur leaves the text unchanged |
| Strings.ReplaceAllMatch | app.js:63 | a match at the scan position is replaced and the scan resumes after it, so inserted text is never rescanned |
| Strings.ReplaceAllSkip | app.js:63 | a stretch holding no first letter of the key is copied unchanged |
| Strings.ReplaceAllKeepsAbsent | app.js:62-64 | after a replace-all with a non-empty value sharing no character with `word`, the output holds no `word` if the input held none, and never holds the key itself |
| Strings.Split | app.js:108 | `split(" ")` yields at least one field and no field contains a space |
| Strings.JoinSplit | app.js:108 | joining the fields with single spaces gives back the line: splitting loses nothing |
| Strings.SplitJoin | app.js:108 | fields without spaces survive a join followed by a split |
| Strings.SplitSeveral | app.js:108 | a line has a second field exactly when it contains a space |
| Strings.Substring | app.js:109-110 | `substring(start, end)` clamps both bounds to the length and copies the characters from `start` |
| VoiceParser.KeepCoords | app.js:67 | the filter's output holds only `a`-`h` and `1`-`8` and is no longer than its input |
| VoiceParser.KeepCoordsOne | app.js:67 | on one character the filter keeps a coordinate character and deletes any other; with `KeepCoordsAppend` this fixes the filter on every string |
| VoiceParser.KeepCoordsCounts | app.js:67 | every coordinate character is kept as often as it occurs and every other character is deleted |
| VoiceParser.KeepCoordsFixed | app.js:67 | the filter leaves a string unchanged exactly when it is all coordinate characters |
| VoiceParser.KeepCoordsIdempotent | app.js:67 | filtering twice is filtering once |
| VoiceParser.KeepCoordsAppend | app.js:67 | the filter works piece by piece |
| VoiceParser.SubstituteAll | app.js:61-64 | the table's substitutions applied to the text one after another, first entry first |
| VoiceParser.Normalize | app.js:61-67 | the substitutions followed by the filter |
| VoiceParser.ParseVoice | app.js:53-72 | the move a transcript is read as: the four-character split of the normalised text |
| VoiceParser.CleanTranscript | app.js:61-67 | the substitution loop followed by the filter computes `Normalize`, the fold of the table in order, and leaves only coordinate characters |
| VoiceParser.SplitMove | app.js:69-72 | there is a move exactly when four or more characters remain; its squares have two characters each and together are the first four |
| VoiceParser.SplitMoveIgnoresRest | app.js:69-72 | characters after the fourth never change the move |
| VoiceParser.Replacements | app.js:55-59 | the 15 substitutions, in the order `Object.entries` yields them (insertion order, since no key looks like an integer) |
| VoiceParser.ReplacementValuesAreCoords | app.js:55-59 | every replacement value is non-empty and made of coordinate characters |
| VoiceParser.ReplacementSurvives | app.js:67 | text made of coordinate characters survives the filter intact wherever it stands |
| VoiceParser.SubstituteAllConcat | app.js:62-64 | running the table in two parts is running it whole, in order |
| VoiceParser.SubstituteAllAbsent | app.js:62-64 | a table none of whose words occurs changes nothing |
| VoiceParser.SubstituteAllKeepsAbsent | app.js:62-64 | later substitutions whose values are non-empty and share no character with a word cannot bring that word back |
| VoiceParser.EntryLeavesNoWord | app.js:62-64 | after entry `n` has run its word no longer occurs, when the entry's value shares no letter with its word (11 of the 15 entries); "be" and "bee" can survive their own entry (`VoiceExamples.BeSurvivesItsEntry`) |
| VoiceParser.CleanTextPassesThrough | app.js:55-67 | text of coordinate characters without "be" passes the substitutions and the filter unchanged |
| VoiceParser.SquaresPassThrough | app.js:53-72 | two squares typed or recognised as such are read back as exactly that move |
| VoiceParser.TooNeverFires | app.js:55-64 | the entry "too" never changes anything |
| VoiceParser.BeforeNeverFires | app.js:55-64 | the entry "before" never changes anything |
| VoiceExamples.SpokenBefore | app.js:55-72 | "before" becomes "b4e" through "for" and then "be", and is not a move |
| VoiceExamples.SpokenTwoFour | app.js:53-72 | "<file> two <file> four" normalises to `<file>2<file>4` and is read as the move from rank 2 to rank 4 |
| VoiceExamples.TypedE2E4 | app.js:53-72 | "e2e4" is read as the move from e2 to e4 |
| VoiceExamples.CoordinateTextWithBe | app.js:55-72 | four coordinate characters `[a] + "be" + [d]` lose their `e` and are not a move |
| VoiceExamples.BeSurvivesItsEntry | app.js:57-63 | the entry "be" turns "bbee" into "bbe", which still holds "be" |
| VoiceExamples.BeeSurvivesItsEntry | app.js:57-63 | the entry "bee" turns "bbeeee" into "bbee", which still holds "bee" |
| EngineProtocol.PositionCommand | app.js:103 | the command `position fen ` followed by the serialised position |
| EngineProtocol.PositionFen | app.js:103 | the engine reads a position command back as the position it carries, and nothing else as a position |
| EngineProtocol.SearchCommands | app.js:103-104 | exactly two commands are sent: the position, as the engine reads it, then `go depth 12` |
| EngineProtocol.WholeRequests | app.js:103-104 | a command log made of (position, `go depth 12`) pairs |
| EngineProtocol.WholeRequestsAppend | app.js:103-104 | sending a request keeps the command log made of whole (position, search) pairs |
| EngineProtocol.ResultText | app.js:96 | "Checkmate!" in checkmate, "Draw!" for any other end of the game |
| EngineProtocol.ParseReply | app.js:106-110 | a line is ignored exactly when it does not start with "bestmove", cannot be read exactly when it has no second field, and otherwise gives squares of at most two characters |
| EngineProtocol.ParseReplyField | app.js:107-110 | a `bestmove` line followed by any space-free token, and any further fields, reads as characters 0-2 and 2-4 of that token, clamped as `substring` clamps them |
| EngineProtocol.BestMoveRoundTrip | app.js:107-110 | the line the engine prints for a move, with or without a promotion letter and with any trailing fields, is read back as that move |
| Game.CouldNotParse | app.js:74 | the status line quoting a transcript that holds no move |
| Game.AfterDrop | app.js:9-23 | the drop step: a rejected move changes nothing; an accepted one updates the game and board and schedules a request after 250 ms |
| Game.AfterMove | app.js:80-92 | the move step: a rejected move sets the "Illegal move" status and speaks the notice; an accepted one updates the game and board, sets "AI is thinking..." and schedules a request after 500 ms |
| Game.AfterVoice | app.js:53-77 | the transcript step: the move step for a readable transcript, else the "Could not parse" status and "Try again" |
| Game.AfterRequest | app.js:94-104 | the request step: the result on screen and aloud if the game is over, else the two commands sent and the handler installed |
| Game.AfterEngineLine | app.js:106-118 | the engine-line step: once the handler is installed, a readable `bestmove` line is tried with a queen promotion, shown, announced and followed by "Your turn!" |
| Game.AfterTimer | app.js:90 | a scheduled request (set at app.js:90 after a move, or at app.js:22 after a drop) leaves the schedule and the request step runs |
| Game.Consistent | app.js:88 | the page invariant: the board shows the game's position, the log holds whole requests, and the handler is installed exactly when something was sent |
| Game.RequestKeepsConsistent | app.js:94-104 | a request keeps the board equal to the game's position, the command log whole, and the handler installed exactly when commands were sent |
| Game.TimerKeepsConsistent | app.js:94-104 | a scheduled request, when it runs, keeps the page consistent |
| Game.MovesKeepConsistent | app.js:80-92 | dragged, given and spoken moves keep the page consistent |
| Game.EngineLineKeepsConsistent | app.js:106-118 | every engine line keeps the page consistent |
| Game.IllegalMoveKeepsGame | app.js:81-85 | a rejected move changes neither game nor board, sends and schedules nothing, and reports "Illegal move" on screen and aloud; a rejected drop changes nothing |
| Game.LegalMoveSchedulesReply | app.js:86-91 | an accepted move is applied and shown at once and schedules exactly one request (500 ms after a spoken move, 250 ms after a drop); nothing is sent yet |
| Game.UnreadableTranscript | app.js:73-76 | a transcript leaving fewer than four characters only sets the "Could not parse" status quoting it and says "Try again" |
| Game.ReadableTranscript | app.js:69-72 | a transcript leaving four or more characters is played as the move between its first two and next two |
| Game.OverGameSendsNothing | app.js:95-100 | once the game is over nothing is sent, and the status reads "Game Over: Checkmate!" exactly in checkmate and "Game Over: Draw!" otherwise |
| Game.RequestSendsPosition | app.js:102-104 | while the game goes on, exactly the current position and then `go depth 12` are appended to what was sent |
| Game.OtherLinesIgnored | app.js:106-107 | lines before the first request, and lines that are not readable `bestmove` lines, change nothing |
| Game.EngineMovePlayed | app.js:106-118 | the engine's move is tried with promotion to a queen and announced whatever the rules engine says, and the handler stays installed |
| Game.Session.constructor | app.js:2-6 | a new session is in the start position, shown on the board, with nothing said, sent or scheduled |
| Game.Session.OnDrop | app.js:9-23 | the drop handler snaps back exactly when the rules engine rejects the move, and otherwise performs the drop step |
| Game.Session.HandleMove | app.js:80-92 | the move handler performs the move step and keeps the page consistent |
| Game.Session.ParseVoiceMove | app.js:53-77 | the voice handler performs the transcript step and keeps the page consistent |
| Game.Session.MakeBestMove | app.js:94-119 | the request performs the request step and keeps the page consistent |
| Game.Session.RunTimer | app.js:90 | a scheduled request (set at app.js:90 or app.js:22) leaves the schedule and runs |
| Game.Session.OnEngineMessage | app.js:106-118 | the engine message handler performs the engine-line step and keeps the page consistent |

## Left out

- Speech recognition setup, the listen button and the result handler (app.js:31-50) are
  browser I/O. The handler lower-cases the transcript, sets an "I heard" status that the
  parser immediately overwrites, and calls the parser. The model's parser takes the
  lower-cased text as its input. JavaScript's Unicode case mapping is not modelled.
- Speech output (`speak`, app.js:121-123) is a log of the utterances, `spoken`.
- The chess rules, FEN and the game-over tests belong to chess.js, a library outside this
  model. They are the four functions of `Rules<S>`. Whether a move is legal is never decided
  here.
- The board widget (`Chessboard`, piece images, the snap-back animation) is reduced to the
  position it shows. The page starts the board with the keyword 'start'. The model shows the
  serialised starting position of the rules engine instead, which is the same position.
- The engine worker is not modelled: no search is performed and no reply is generated. Timers
  are a list of scheduled delays. `RunTimer` lets any scheduled request run, in any order;
  real timers fire by delay.
- The status line's initial text comes from the page's HTML, which is not part of this model.
  The model starts it empty.
- Characters are Dafny `char`s, not UTF-16 code units. All the strings the code compares are
  ASCII.
