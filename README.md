# Party-game server: rooms, players and rounds

This project models the core of a small multiplayer party game. A player creates a room and gets
a five-letter code. Others join with that code. Each round one player, the actor, is shown a card
of questions and a secret answer; the others guess which question is the answer; the actor
reveals it, scores are awarded, and the turn passes to the next active player.

The server keeps a MySQL `room` table, a `player` table, a read-only `card`/`question`
catalogue, and an in-memory `allPlayers` list binding sockets to player keys and secrets. Each
socket event runs one handler (`src/handlers/*.ts`) that sanitises the message, checks and
updates the tables, and emits replies. The browser client (`public/sa.js`) restores the player
from cookies, hashes names to emojis, rewrites question text in the second or third person,
sends guesses and accepts or rejects the server's messages.

The model is in Dafny:

- `options.dfy`, `text.dfy`, `ordering.dfy` hold the small library: `Option`/`Result`, the string
  operations the source uses (regex character filters, `substr`, `toUpperCase`, `split`, global
  literal `replace`) and sorting/min/max.
- `tables.dfy` holds the tables as values and the read-only queries (`PullPlayerData`,
  `PullRoomCode`, `PullRoomData`, the MAX and MIN selects).
- `sanitize.dfy` models `SanitizeData` and `VerifyPlayer` on an explicit JavaScript value type.
- `rules.dfy` states the game rules as functions: join placement, next actor, card and answer
  draws, reveal scoring, choice reset.
- `messages.dfy` and `errors.dfy` hold the reply object, emits and audiences, and the handlers'
  error strings.
- `handlers.dfy` states each handler as a relation between the store before, the store after and
  the emits, stage by stage, plus the in-memory lookups on the session list.
- `server.dfy` is the `GameServer` class: the tables, `allPlayers` and the next AUTO_INCREMENT
  key as fields, and one method per socket event that changes them step by step. Every method is
  proved to keep the store invariant `Valid()` (keys below `nextKey`, every player's room exists,
  turn indices unique per room) and to satisfy its handler's relation.
- `properties.dfy` proves the cross-cutting guarantees from those relations.
- `client.dfy` models the browser helpers, with the page's state as the `Page` class.

Randomness (`Math.random`, `ORDER BY RAND()`) becomes pick parameters. Each draw is shown to
reach every allowed value (`DrawCardCoversEligible`, `DrawAnswerCoversRange`,
`CodeOfCoversLetters`). A failing SQL statement is a `Fault` tag in a `faults` set: the statement
then returns a falsy result and the handler takes its error path. RevealAnswer's loop issues one
score UPDATE per scored row; which of them the database rejects is the parameter `failAt`, the
roster position of the failing row, so a failure after earlier rows were written is covered.

The code behaves as follows on points where a reader might expect otherwise:

- RevealAnswer counts every roster row whose choice is correct, the actor's own row and inactive
  players included (`NumberCorrectCountsRoom`, `ActorOwnChoiceCounts`).
- ProgressQuestions clears the choice of every row of the room, active or not (`ResetChoices`).
- ProgressQuestions gives the turn to the lowest active index when the current index is not
  active, not to its successor (`NextActorWhenAbsent`, `NextActorSkipsAheadToFirst`).
- JoinGame appends the newcomer exactly when the room pointer is 1, whatever the game state.
- A well-typed key/secret pair that matches no row still passes `VerifyPlayer`. A `count(*)`
  query always returns one row, so only a failing query rejects it
  (`UnknownPlayerPassesSanitize`).

## Model

| member | source | states |
|---|---|---|
| Text.Keep | src/utils/SanitizeData.ts:55 | `s.replace(/[^class]/g, '')` keeps exactly the accepted characters, each as often as in the input, and is the identity on text that is already clean |
| Text.KeepAppend | src/utils/SanitizeData.ts:55 | filtering a concatenation filters each part and keeps them in order |
| Text.KeepCons | src/utils/SanitizeData.ts:55 | the filter of a string starting with c is c, if the class accepts it, followed by the filter of the rest |
| Text.KeepOne | src/utils/SanitizeData.ts:55 | one character is kept exactly when the class accepts it (with KeepAppend this fixes the filter's result, order included) |
| Text.Take | src/utils/SanitizeData.ts:55 | `substr(0, n)` is a prefix of length `min(n, |s|)` |
| Text.CleanText | src/utils/SanitizeData.ts:55 | a sanitised string field has at most 20 characters, all in `[0-9a-zA-Z_ ]` |
| Text.CleanTextAppend | src/utils/SanitizeData.ts:55 | cleaning `a + b` keeps the word characters of a, then those of b, in input order, cut at 20 |
| Text.CleanTextFirstTwenty | src/utils/SanitizeData.ts:55 | once a prefix holds 20 word characters, nothing after it reaches the cleaned text |
| Text.AlnumText | src/utils/VerifyPlayer.ts:24 | the verifier's cleaned secret or room code has at most 20 characters, all letters or digits |
| Text.AlnumTextAppend | src/utils/VerifyPlayer.ts:24 | the verifier's cleaning keeps letters and digits in input order, cut at 20 |
| Text.AlnumTextFirstTwenty | src/utils/VerifyPlayer.ts:39 | once a prefix holds 20 letters and digits, nothing after it reaches the cleaned secret or room code |
| Text.CleanTextIdempotent | src/utils/SanitizeData.ts:55 | sanitising a cleaned string again changes nothing |
| Text.ToUpper | src/handlers/JoinGame.ts:48 | `toUpperCase` keeps the length and maps each character |
| Text.ToUpperKeepsWordChars | src/handlers/JoinGame.ts:48 | an upper-cased clean room code stays clean and has no lower-case letter |
| Text.SplitOn | public/sa.js:1531 | `split(';')` yields at least one piece |
| Text.SplitJoinRoundTrip | public/sa.js:1531 | joining the pieces of a split with the separator gives the string back |
| Text.ReplaceAllIsSplitJoin | public/sa.js:1593 | a global literal `replace` equals `split(p).join(w)` |
| Text.SplitPiecesAvoidPattern | public/sa.js:1593 | no piece of `split(p)` contains `p`: every occurrence is replaced |
| Text.ReplaceAllSkips | public/sa.js:1593 | a prefix at none of whose positions `p` occurs passes through the global replace unchanged |
| Text.OccursAfterHead | public/sa.js:1593 | the pattern occurs one position later in s than in s without its first character |
| Ordering.SortedSet | src/utils/PullPlayerData.ts:6 | the keys in increasing order, each once: the scan order before `ORDER BY player_index` |
| Ordering.InsertBy | src/utils/PullPlayerData.ts:6 | inserting behind every element with a key not larger keeps the order and adds exactly that element |
| Ordering.SortBy | src/utils/PullPlayerData.ts:6 | the result is ordered by the key and is a permutation of the input |
| Ordering.Max | src/handlers/JoinGame.ts:63 | SQL MAX: an element of the column, not below any other |
| Ordering.Min | src/handlers/StartGame.ts:69 | SQL MIN: an element of the column, not above any other |
| Ordering.MinOf | src/handlers/StartGame.ts:69 | the least element of a non-empty set of indices is in it and not above any other |
| Tables.PullPlayerData | src/utils/PullPlayerData.ts:5-8 | the roster lists every row of the room exactly once, ordered by turn index, each row as stored |
| Tables.SoleRoster | src/handlers/GenerateGame.ts:74-75 | a room with one player lists just that player |
| Tables.Strip | src/handlers/JoinGame.ts:115 | the broadcast roster has every secret deleted and every other field kept |
| Tables.PullRoomCode | src/utils/PullRoomCode.ts:4-9 | a room code comes back exactly when the query succeeds and a row holds the key and secret; it is that row's room |
| Tables.GameState | src/utils/PullRoomData.ts:14-16 | state 0 iff no card, 1 iff a card and not revealed, 2 iff a card and revealed |
| Tables.PullRoomData | src/utils/PullRoomData.ts:5-35 | the four outcomes (failed query, no room, exception for a missing card row, found) and, when found, the room's fields, its derived state and its card's questions only once started |
| Tables.RoomIndices | src/handlers/ProgressQuestions.ts:45-51 | the index column holds exactly the indices of the room's (active) rows and is empty iff there are none |
| Tables.MaxIndex | src/handlers/JoinGame.ts:63-69 | `MAX(player_index) \|\| 0`: 0 for an empty room, else the largest index of the room |
| Tables.MinActiveIndex | src/handlers/StartGame.ts:69-75 | None iff no row of the room is active, else the least index of an active row |
| Sanitizer.TypeOf | src/utils/SanitizeData.ts:48 | `typeof` is "string" exactly for strings and "number" exactly for numbers |
| Sanitizer.Trunc | src/utils/SanitizeData.ts:60 | the integer part of a number in plain decimal form truncates toward zero |
| Sanitizer.DigitDown | src/utils/SanitizeData.ts:60 | the leading digit of a number at least 1 is in 1..9 |
| Sanitizer.DigitUp | src/utils/SanitizeData.ts:60 | the leading digit of a number between 0 and 1 is in 1..9 |
| Sanitizer.DigitDownScale | src/utils/SanitizeData.ts:60 | y lies in [d, d + 1) times a power of ten, d its leading digit |
| Sanitizer.DigitUpScale | src/utils/SanitizeData.ts:60 | y times a power of ten lies in [d, d + 1), d its leading digit |
| Sanitizer.ParseNumber | src/utils/SanitizeData.ts:60 | `parseInt` of a finite number: truncation when JavaScript prints it plainly (10^-6 <= \|x\| < 10^21), else the signed leading digit of its exponent form |
| Sanitizer.ParseNumberOfInteger | src/utils/VerifyPlayer.ts:23 | an integer below 10^21 in size parses back to itself |
| Sanitizer.ParseNumberLarge | src/utils/SanitizeData.ts:60 | `parseInt(1e21)` is 1 |
| Sanitizer.ParseNumberSmall | src/utils/SanitizeData.ts:60 | `parseInt(5e-7)` is 5 and `parseInt(-1.5e-7)` is -1 |
| Sanitizer.CleanField | src/utils/SanitizeData.ts:35-61 | a field is skipped iff undefined, a type error iff neither undefined, null nor of its declared type, kept as null, cleaned text or `parseInt` of the number otherwise |
| Sanitizer.FirstMissing | src/utils/SanitizeData.ts:65-71 | None iff every required field is present and not null, else the first one that is not |
| Sanitizer.VerifyPlayer | src/utils/VerifyPlayer.ts:4-51 | verification succeeds iff the key is a number, the secret a string, the room code absent, null or a string, and the query succeeds; each failure carries its own message |
| Sanitizer.SanitizeData | src/utils/SanitizeData.ts:17-84 | the method's two loops and verification gate return clean data exactly when the `Sanitize` relation does, with its data or its error message |
| Sanitizer.CopyAllowed | src/utils/SanitizeData.ts:32-62 | the allow-list loop returns what `Copy` describes: the copied fields, or the first type error |
| Sanitizer.FindMissing | src/utils/SanitizeData.ts:65-71 | the required-field loop finds `FirstMissing` |
| Sanitizer.CopyContents | src/utils/SanitizeData.ts:32-62 | the copy succeeds iff no allow-listed field has the wrong type; then it holds exactly the non-undefined allow-listed fields, each cleaned |
| Sanitizer.SanitizeOutcome | src/utils/SanitizeData.ts:17-84 | a successful sanitisation holds exactly the allow-listed non-undefined fields, null kept, strings cleaned, numbers through `parseInt` |
| Sanitizer.SanitizeAccepts | src/utils/SanitizeData.ts:17-84 | SanitizeData succeeds iff no type error, every required field present and not null, and verification (when key and secret are truthy) passes |
| Sanitizer.VerifyCleaned | src/utils/SanitizeData.ts:74-79 | on cleaned data only a failing query makes verification fail |
| Sanitizer.AllowListShape | src/utils/SanitizeData.ts:24-30 | the allow-list has five distinct names, each typed "string" or "number" |
| Sanitizer.SanitizeTypeError | src/utils/SanitizeData.ts:47-51 | the first allow-listed field of the wrong type is the one the error names, whatever follows |
| Sanitizer.FirstTypeError | src/utils/SanitizeData.ts:32-51 | the copy loop stops with the message of the first mismatching field |
| Sanitizer.SanitizeReadsAllowListOnly | src/utils/SanitizeData.ts:32-35 | two messages that agree on the five allow-listed properties sanitise alike |
| Sanitizer.CopyReadsFieldsOnly | src/utils/SanitizeData.ts:32-35 | the copy reads only the listed properties |
| Sanitizer.SanitizeSkipsFalsyCredentials | src/utils/SanitizeData.ts:74 | with a zero key or an empty secret the outcome depends on neither the player table nor the verification query |
| Sanitizer.MatchCountBounds | src/utils/VerifyPlayer.ts:30-40 | the verification count is 0 or 1, and 0 for an unknown key |
| Sanitizer.UnknownPlayerPassesSanitize | src/utils/VerifyPlayer.ts:44-50 | every message carrying just a numeric key and a string secret passes when the query succeeds, matching row or not (count 0 for an unknown key), and yields the two cleaned fields |
| Sanitizer.CopyKeyAndSecret | src/handlers/JoinGame.ts:38-42 | every message whose only allow-listed properties are a numeric key and a string secret copies to exactly those two fields, parsed and cleaned |
| Rules.Eligible | src/handlers/StartGame.ts:79 | the drawable cards in key order: every card except 8, 11, 12 and the excluded ones |
| Rules.DrawCard | src/handlers/ProgressQuestions.ts:61 | the drawn card exists and is neither reserved nor excluded; None iff no card qualifies |
| Rules.DrawCardCoversEligible | src/handlers/StartGame.ts:79 | every eligible card is drawn for some pick |
| Rules.DrawAnswer | src/handlers/StartGame.ts:101 | `floor(random * n) + 1` lies in 1..n |
| Rules.DrawAnswerCoversRange | src/handlers/ProgressQuestions.ts:79 | every answer 1..n is drawn for some pick |
| Rules.SameSeatsKeepTurns | src/handlers/RevealAnswer.ts:76 | updates that move no one's room or index keep turn indices unique |
| Rules.ShiftUpKeepsTurns | src/handlers/JoinGame.ts:82 | shifting indices from the pointer up keeps them unique |
| Rules.ShiftUp | src/handlers/JoinGame.ts:82 | the shift changes only the index of the room's rows |
| Rules.AdmitFrame | src/handlers/JoinGame.ts:74-99 | a join keeps other rooms' rows and changes only indices of the room's rows, plus the new row |
| Rules.AdmitKeepsTurnsUnique | src/handlers/JoinGame.ts:74-99 | a join keeps every room's indices duplicate-free |
| Rules.AdmitKeepsActor | src/handlers/JoinGame.ts:81-93 | the player at the old pointer is at the new pointer after the join |
| Rules.AdmitKeepsOrder | src/handlers/JoinGame.ts:82 | a join keeps the turn order among the room's players |
| Rules.AdmitKeepsIndicesContiguous | src/handlers/JoinGame.ts:72-94 | a room holding indices 1..n holds 1..n+1 after a join |
| Rules.MaxIndexOfRange | src/handlers/JoinGame.ts:63-69 | a room holding exactly 1..n has MAX n |
| Rules.FindIndex | src/handlers/ProgressQuestions.ts:56 | `findIndex`: the first position of the value, or -1 iff absent |
| Rules.NextActor | src/handlers/ProgressQuestions.ts:56 | the next actor is one of the active indices |
| Rules.NextActorWhenAbsent | src/handlers/ProgressQuestions.ts:56 | an inactive current index hands the turn to the lowest active index |
| Rules.NextActorIsSuccessor | src/handlers/ProgressQuestions.ts:51-56 | an active current index hands the turn to the least active index above it, wrapping to the lowest |
| Rules.NextActorSkipsAheadToFirst | src/handlers/ProgressQuestions.ts:56 | with active 1, 3, 5 and the pointer on 4 the turn goes to 1 |
| Rules.Ascending | src/handlers/ProgressQuestions.ts:52 | the numeric sort is ordered and a permutation of the column |
| Rules.AscendingDistinct | src/handlers/ProgressQuestions.ts:52 | sorting distinct indices gives a strictly increasing list |
| Rules.NumberCorrect | src/handlers/RevealAnswer.ts:66 | the count is at most the roster size |
| Rules.NumberCorrectCountsKeys | src/handlers/RevealAnswer.ts:66 | with one row per key, the count is the number of players whose choice is correct |
| Rules.CorrectKeysCons | src/handlers/RevealAnswer.ts:66 | the correct keys of a roster are its first row's key, when that row is correct, and those of the rest |
| Rules.NumberCorrectCountsRoom | src/handlers/RevealAnswer.ts:57-66 | over the room's roster, the count is the number of the room's players, any state, with the correct choice |
| Rules.ScoreRoom | src/handlers/RevealAnswer.ts:70-94 | scoring changes only scores of the room's rows and never lowers one |
| Rules.ScoreFold | src/handlers/RevealAnswer.ts:70-94 | the loop's writes keep the table's keys |
| Rules.ScoreFoldPrefix | src/handlers/RevealAnswer.ts:70-94 | after i rows exactly those rows' players are scored |
| Rules.ScoreFoldRoom | src/handlers/RevealAnswer.ts:70-94 | the loop over the whole roster scores exactly the room |
| Rules.ScoreFoldIdle | src/handlers/RevealAnswer.ts:74-93 | rows that are neither the actor's nor a correct guess draw no UPDATE, so they leave the table as it was |
| Rules.ScoreFoldRoomPrefix | src/handlers/RevealAnswer.ts:70-94 | after the first i rows of the room's roster, exactly those rows' players, all of the room, carry their award |
| Rules.ScoreFoldPrefixRaises | src/handlers/RevealAnswer.ts:70-94 | the writes made before a failing UPDATE keep every seat, change only the room's scores, and only upward |
| Rules.ScoreRoomKeepsSeats | src/handlers/RevealAnswer.ts:76 | scoring moves no one's room or index |
| Rules.ScoreRoomAwards | src/handlers/RevealAnswer.ts:73-93 | the actor gains the number correct, another correct guesser 1, everyone else 0 |
| Rules.ActorOwnChoiceCounts | src/handlers/RevealAnswer.ts:66-79 | an actor whose stored choice is the answer is among the counted keys, so the count is one more than the other correct players, and the actor gains that count |
| Rules.ResetChoices | src/handlers/ProgressQuestions.ts:85 | every row of the room, active or not, gets a NULL choice; other rows are unchanged |
| Messages.Fail | src/handlers/JoinGame.ts:21-25 | the shared error path sends one reply with its error set, to the sender only |
| Handlers.FindSession | src/handlers/RejoinGame.ts:42 | `allPlayers.find` on key and secret: the first matching entry, or -1 iff none matches |
| Handlers.FindSocket | src/handlers/RemovePlayer.ts:17 | `allPlayers.find` on the socket: the first matching entry, or -1 iff none |
| Handlers.Rebind | src/handlers/RejoinGame.ts:42-47 | the first entry with the key and secret gets the new socket, or one entry is appended; no other entry changes |
| Handlers.RebindIdempotent | src/handlers/RejoinGame.ts:42-47 | rejoining twice from the same socket leaves the list as one rejoin did |
| Handlers.CodeOf | src/handlers/GenerateGame.ts:38 | a code attempt has one capital letter per draw |
| Handlers.CodeOfCoversLetters | src/handlers/GenerateGame.ts:38 | every string of capitals is some attempt's code |
| Handlers.FirstFresh | src/handlers/GenerateGame.ts:36-46 | the loop stops at the first attempt whose code no room holds |
| Handlers.RejoinInput | src/handlers/JoinGame.ts:38-41 | the rejoin message carries just the key and the secret |
| Handlers.FindPlayer | src/handlers/StartGame.ts:59 | `playerList.find` on key and secret: the first match, or -1 iff none |
| Handlers.FindPlayerInRoom | src/handlers/StartGame.ts:53-63 | the requester check passes iff the key is a player of that room holding that secret |
| Handlers.ScoreRoster | src/handlers/RevealAnswer.ts:81-95 | the broadcast roster keeps every row except its score, which never drops |
| Handlers.FirstScored | src/handlers/RevealAnswer.ts:74-93 | the first row the loop writes for (actor or correct guesser), or -1 iff none |
| Handlers.SetChoice | src/handlers/RegisterGuess.ts:37 | only the row with that key and secret gets the choice |
| Server.GameServer.constructor | src/index.ts:37-45 | the server starts with empty tables and session list and key 1 |
| Server.GameServer.GenerateGame | src/handlers/GenerateGame.ts:8-84 | keeps `Valid()` and does what `GenerateOutcome` describes |
| Server.GameServer.CreateRoom | src/handlers/GenerateGame.ts:24-83 | inserts a room under a fresh code and its creator at index 1 under the next key, with a session entry |
| Server.GameServer.AnnounceCreate | src/handlers/GenerateGame.ts:74-83 | the creator alone is listed back to the creator |
| Server.GameServer.FreshCode | src/handlers/GenerateGame.ts:34-46 | the loop returns the first five-letter attempt no room holds |
| Server.GameServer.JoinGame | src/handlers/JoinGame.ts:11-128 | keeps `Valid()` and does what `JoinOutcome` describes: errors, the redirect to rejoin, or a seated newcomer |
| Server.GameServer.SeatPlayer | src/handlers/JoinGame.ts:47-59 | looks the room up and, when found, seats the newcomer |
| Server.GameServer.PlacePlayer | src/handlers/JoinGame.ts:62-94 | appends after MAX when the pointer is 1, else shifts and takes the pointer's slot |
| Server.GameServer.ShiftSeats | src/handlers/JoinGame.ts:82-86 | raises every index of the room from the pointer on; a failed update changes nothing |
| Server.GameServer.MovePointer | src/handlers/JoinGame.ts:87-93 | moves the pointer up by one; on failure the shift stays |
| Server.GameServer.InsertPlayer | src/handlers/JoinGame.ts:97-110 | inserts the newcomer at a free index under the next key and appends one session entry |
| Server.GameServer.AnnounceJoin | src/handlers/JoinGame.ts:112-128 | the stripped roster to the others; the same with the secret to the newcomer |
| Server.GameServer.RejoinGame | src/handlers/RejoinGame.ts:17-97 | keeps `Valid()` and does what `RejoinOutcome` describes |
| Server.GameServer.ReturnPlayer | src/handlers/RejoinGame.ts:36-65 | rebinds the session first, then re-activates the player found by key and secret |
| Server.GameServer.AnnounceReturn | src/handlers/RejoinGame.ts:68-96 | the stripped roster and the room to the others ('player joined') and to the sender ('game rejoined') |
| Server.GameServer.LeaveGame | src/handlers/LeaveGame.ts:9-69 | keeps `Valid()` and does what `LeaveOutcome` describes |
| Server.GameServer.DeletePlayer | src/handlers/LeaveGame.ts:27-68 | deletes the row holding the key and secret, then reports the reduced roster |
| Server.GameServer.RemovePlayer | src/handlers/RemovePlayer.ts:7-57 | keeps `Valid()` and does what `RemoveOutcome` describes: silent no-ops, deactivation, news to the others |
| Server.GameServer.RegisterGuess | src/handlers/RegisterGuess.ts:8-59 | keeps `Valid()` and does what `GuessOutcome` describes |
| Server.GameServer.LegacyRegisterGuess | index.js:501-539 | keeps `Valid()` and does what `LegacyGuessOutcome` describes: no missing-credential check, roster always sent |
| Server.GameServer.StoreGuess | src/handlers/RegisterGuess.ts:31-58 | writes the choice of the matching row, then broadcasts the roster when asked |
| Server.GameServer.StartGame | src/handlers/StartGame.ts:9-122 | keeps `Valid()` and does what `StartOutcome` describes |
| Server.GameServer.LaunchGame | src/handlers/StartGame.ts:37-65 | drops a started game silently, requires the requester in the roster |
| Server.GameServer.BeginRound | src/handlers/StartGame.ts:68-121 | lowest active index acts, a drawable card and an answer among its questions are written |
| Server.GameServer.RevealAnswer | src/handlers/RevealAnswer.ts:9-101 | keeps `Valid()` and does what `RevealOutcome` describes, including a score UPDATE failing at any scored row |
| Server.GameServer.MarkRevealed | src/handlers/RevealAnswer.ts:35-53 | sets the revealed flag, then reads the room |
| Server.GameServer.ScorePlayers | src/handlers/RevealAnswer.ts:56-100 | scores the roster as `ScoreRoom` describes and broadcasts it; if the UPDATE of the scored row at `failAt` fails, keeps the earlier rows' writes and replies with that row's error to the sender |
| Server.GameServer.ProgressQuestions | src/handlers/ProgressQuestions.ts:9-108 | keeps `Valid()` and does what `ProgressOutcome` describes |
| Server.GameServer.DrawNext | src/handlers/ProgressQuestions.ts:35-80 | computes the next actor, a different drawable card and an answer |
| Server.GameServer.OpenRound | src/handlers/ProgressQuestions.ts:83-107 | writes the new round, clears the room's choices, broadcasts |
| Server.ScoreRows | src/handlers/RevealAnswer.ts:70-94 | the loop over the roster produces `ScoreFold` and `ScoreRoster`; when the UPDATE of the scored row at `failAt` fails it stops there, with exactly the rows before it written (`ScoreFold` of that prefix) |
| Server.ScoreStore | src/handlers/RevealAnswer.ts:66-100 | keeps every seat and yields what `ScoreOutcome` describes: the scored roster broadcast to the room, or, after a rejected UPDATE, the earlier rows' writes and that row's error to the sender |
| Server.KeepConsistent | src/handlers/RemovePlayer.ts:26 | updates keeping every seat and every room keep the invariant |
| Server.PlayersKeepConsistent | src/handlers/RevealAnswer.ts:70-94 | a new player table that keeps every seat keeps the store invariant |
| Server.CreateKeepsConsistent | src/handlers/GenerateGame.ts:50-51 | a fresh room and its creator keep the invariant, the creator alone in the room |
| Server.ShiftKeepsConsistent | src/handlers/JoinGame.ts:82 | the shift keeps the invariant and frees the pointer's index |
| Server.InsertKeepsConsistent | src/handlers/JoinGame.ts:99 | inserting at a free index of an existing room keeps the invariant |
| Properties.ActiveColumnDistinct | src/handlers/ProgressQuestions.ts:45 | the active index column has no repeats |
| Properties.AscendingMembers | src/handlers/ProgressQuestions.ts:52 | sorting keeps membership |
| Properties.NextActorRule | src/handlers/ProgressQuestions.ts:45-56 | over the room's active players the next actor is active, the successor of an active actor with wrap-around, else the lowest |
| Properties.ProgressRound | src/handlers/ProgressQuestions.ts:56-85 | a progress that writes the room sets an active next actor, a different drawable card, an answer in range and unrevealed; only then are choices cleared |
| Properties.StartRound | src/handlers/StartGame.ts:37-102 | a started room is left alone silently; a start writes only pointer (lowest active index), card and answer, for a requester of that room |
| Properties.JoinAdmits | src/handlers/JoinGame.ts:72-110 | a successful join seats the newcomer as `Admit` describes under the next key and adds exactly one session entry |
| Properties.JoinShiftPersists | src/handlers/JoinGame.ts:82-91 | when the pointer update fails the indices stay shifted and no one is inserted |
| Properties.JoinRedirectSeatsNoOne | src/handlers/JoinGame.ts:35-45 | a join by an existing player adds no row and moves no index |
| Properties.RejoinKeepsSeats | src/handlers/RejoinGame.ts:17-97 | a rejoin adds no row, moves no index, touches no room |
| Properties.RejoinRebinds | src/handlers/RejoinGame.ts:41-61 | the session list is rebound whatever follows; only that player can be re-activated, and not when no room is found |
| Properties.LeaveDeletesOne | src/handlers/LeaveGame.ts:33-49 | leaving deletes at most the row of the given key and secret and never touches sessions or rooms |
| Properties.LeaveUncleanKeeps | src/handlers/LeaveGame.ts:20-25 | a leave that does not sanitise changes nothing and answers the sender only |
| Properties.RemoveOnlyDeactivates | src/handlers/RemovePlayer.ts:17-39 | a disconnect at most clears the active flag of the socket's player |
| Properties.RemoveTellsOthers | src/handlers/RemovePlayer.ts:50-56 | a disconnect's emits go to the rest of the room or back to the socket |
| Properties.GuessWritesOwnChoice | src/handlers/RegisterGuess.ts:36-58 | a guess writes only the choice of the key-and-secret row; with no room code nothing is broadcast |
| Properties.GuessRetracts | src/handlers/RegisterGuess.ts:34-37 | a null questionIndex stores NULL |
| Properties.ScoreOnlyRaises | src/handlers/RevealAnswer.ts:70-94 | scoring changes only scores of the room, never downward |
| Properties.ScoreFailKeepsEarlier | src/handlers/RevealAnswer.ts:70-94 | when the UPDATE of a scored row fails, the players of the earlier rows keep their new scores, the rest are unchanged, and only the sender hears the actor or player error, with no player list |
| Properties.NothingScoredBeforeFirst | src/handlers/RevealAnswer.ts:74-93 | the rows before the first scored row change nothing |
| Properties.ScoreFailFirstWritesNothing | src/handlers/RevealAnswer.ts:76-90 | a failure on the first scored row's UPDATE leaves the whole store as it was |
| Properties.RevealOnlyRaises | src/handlers/RevealAnswer.ts:35-94 | the revealed flag is set first and stays set; otherwise only scores change, upward |
| Properties.CreateFreshRoom | src/handlers/GenerateGame.ts:29-57 | creation adds one room under a fresh five-capital code with pointer 1 and no card, and one creator at index 1 with a short name and an alphanumeric secret |
| Client.TrimSpaces | public/sa.js:1534-1536 | the trimmed entry is empty or does not start with a space |
| Client.TrimSpacesDropsSpaces | public/sa.js:1534-1536 | the inner loop removes exactly the leading spaces |
| Client.CookieValueIsFirstMatch | public/sa.js:1532-1541 | None iff no trimmed piece starts with `name=`, else the value of the first piece that does |
| Client.GetCookie | public/sa.js:1529-1542 | the method's two loops compute `Cookie` |
| Client.CookieReadsJar | public/sa.js:1529-1542 | reading a cookie jar of `name=value` entries finds the first value stored under the name |
| Client.SplitAtFirstSeparator | public/sa.js:1531 | splitting at the first `;` gives the piece before it and the split of the rest |
| Client.LeadingSpaceIgnored | public/sa.js:1534-1536 | a leading space before an entry does not change the lookup |
| Client.EntryMatches | public/sa.js:1537-1538 | an entry `n=v` matches exactly the name n and yields v |
| Client.DigitValue | public/sa.js:44 | a digit's value is below its base |
| Client.Decimal | public/sa.js:1344 | the cookie's key text is digits without a leading zero |
| Client.DecimalValue | public/sa.js:1344 | the decimal text denotes the number |
| Client.ParseDecimal | public/sa.js:44 | `parseInt` reads back the key written into the cookie |
| Client.Startup | public/sa.js:42-49 | the loaded key is never 0, the room code is five letters, the secret letters and digits |
| Client.StartupRestoresSaved | public/sa.js:42-49 | the key, secret and room the page saved are restored when the query has no room |
| Client.StartupPrefersQuery | public/sa.js:47-48 | a valid room code in the query string wins over the cookie |
| Client.Utf16 | public/sa.js:1587 | `charCodeAt` reads 16-bit code units |
| Client.Units | public/sa.js:1587 | a character's UTF-16 code units are each below 0x10000 |
| Client.Utf16Append | public/sa.js:1586-1588 | the units of a concatenation are the concatenated units |
| Client.UnitSumAppend | public/sa.js:1586-1588 | the sum of the units of a concatenation is the sum of both |
| Client.EmojiOf | public/sa.js:1583-1590 | the hash is always one of the 130 emojis |
| Client.EmojiHash | public/sa.js:1583-1590 | the summing loop returns `EmojiOf` |
| Client.EmojiOfSwapped | public/sa.js:1586-1589 | the emoji of `s + t` equals that of `t + s` |
| Client.LastClose | public/sa.js:1609 | the position after the last `)` in a range, with no `)` after it |
| Client.SpanAt | public/sa.js:1609 | the greedy `\(.*\)` match at a `(`: it ends with the line's last `)`, and is empty iff the line has none |
| Client.SpanEndsOnFirstLine | public/sa.js:1609 | a match ends on its first line |
| Client.FirstLineStaysOpen | public/sa.js:1609 | a first line without `)` keeps none after the deletion |
| Client.StripParensLeavesNoSpan | public/sa.js:1609 | after the deletion no `(` has a `)` later on its line |
| Client.StripParensWithoutOpen | public/sa.js:1609 | text without `(` is unchanged |
| Client.PlaceholderShape | public/sa.js:1593-1598 | each placeholder is X, letters other than X, then X |
| Client.PlaceholdersDiffer | public/sa.js:1593-1598 | two different placeholders differ at a position inside both |
| Client.OtherSlotPasses | public/sa.js:1593-1598 | a placeholder followed by literal text contains no other placeholder |
| Client.Stage | public/sa.js:1593-1598 | after k replacements the six forms are six: the first k words, then the remaining placeholders |
| Client.ReplaceStage | public/sa.js:1593-1598 | the k-th replacement turns placeholder k into its word and touches nothing else |
| Client.PieceStep | public/sa.js:1593-1598 | one piece of text through the k-th replacement |
| Client.PieceHit | public/sa.js:1593-1598 | a piece holding placeholder k becomes its word |
| Client.PiecePassed | public/sa.js:1593-1598 | an already replaced word passes unchanged |
| Client.PieceAhead | public/sa.js:1593-1598 | a later placeholder passes unchanged |
| Client.FillStep | public/sa.js:1593-1598 | a whole question text through one replacement |
| Client.FillLacks | public/sa.js:1593-1598 | text and words without X keep none once filled |
| Client.ReplaceEachFills | public/sa.js:1593-1598 | the six replacements in order turn a question template into the template filled with the words |
| Client.SecondPersonFills | public/sa.js:1592-1600 | `StringTo2ndPerson` writes every placeholder as you / You / your / Your |
| Client.ThirdPersonFills | public/sa.js:1602-1611 | `StringTo3rdPerson` writes every placeholder as they / them / their, capitalised where the placeholder is, then deletes the spans |
| Client.ToggleTwice | public/sa.js:1133-1143 | a tap always changes the choice; tapping twice restores the chosen card or clears another |
| Client.SentChoiceIsStored | public/sa.js:1145-1150 | the choice the server stores for an accepted guess is `parseInt` of the one the page sent, NULL for a retraction; for any index below 10^21 it is the index sent |
| Client.FindKey | public/sa.js:1352 | `playerList.find` on the key: the first match, or the end |
| Client.Page.constructor | public/sa.js:42-49 | the page starts from its start-up data with an empty list |
| Client.Page.SendGuess | public/sa.js:1128-1150 | nothing after reveal; otherwise the choice toggles and the guess sent carries the new choice, key, secret and room |
| Client.Page.ReadMsg | public/sa.js:1324-1354 | a failed or foreign message changes nothing; otherwise its room and list are taken, a personal key and secret adopted, and it is accepted iff the list has the page's key, whose row the page then mirrors |
| Client.Guessers | public/sa.js:987 | the filtered list holds only active non-current players |
| Client.GuessedCountCounts | public/sa.js:987-988 | the guessed count is the number of active non-current players with a choice |
| Client.EveryoneGuessed | public/sa.js:988 | the count reaches the number of guessers iff every guesser has chosen |

## Left out

- SQL, the MySQL pool and socket.io are replaced by tables as values, a fault set and emit
  records; asynchronous interleaving of handlers is not modelled: each handler runs alone.
- Query failures are tags in `faults`; the unchecked inserts of GenerateGame never fail.
- Server.GameServer.CreateRoom: GenerateGame's INSERTs name only room_code and current_player,
  and room_code, player_index, player_name and secret (src/handlers/GenerateGame.ts:50-51). The
  other columns take the schema's defaults, which the source does not show; the model assumes
  card_key -1, question_index 0 and revealed false for the room, and choice NULL, score 0 and
  active true for the player. Properties.CreateFreshRoom relies on the same assumed defaults.
- `last_action` timestamps, `console.log` and `socket.join` room membership are not modelled;
  an audience names the room instead.
- JSON serialisation of replies and of the client's messages is not modelled; the client
  receives the `Reply` value.
- Handlers.Returning: FindExistingPlayer (src/utils/FindExistingPlayer.ts) is folded into this
  predicate on the player table.
- StartGame's MIN over no active row returns SQL NULL, which the source writes into the room;
  the model replies with the "No players found" error instead.
- RegisterGuess with no questionIndex builds the SQL text `choice= undefined`; the query
  throws inside the async handler, which then emits nothing. The model gives that outcome (no
  emit, no change) without modelling the rejected promise itself.
- SQL string collation (case-insensitive comparison of codes and secrets) is not modelled;
  comparisons are exact.
- Sanitizer.ParseNumber: numbers are exact rationals, not IEEE doubles. Number::toString's
  shortest round-trip digits are not modelled, so a double whose shortest form is a power of
  ten just above a value (or rounds up to the next leading digit) may parse differently, and
  integers above 2^53 are not rounded as doubles are.
- index.js: only its RegisterGuess differs in a modelled way (LegacyRegisterGuess). Its other
  differences are not modelled: no "Missing ... after sanitization" checks, the whole join
  message passed on to RejoinGame, and a different initial roomData shape.
- Client.GetCookie: `decodeURIComponent` is not modelled; the cookie string is taken as decoded.
- Client.Startup: `URLSearchParams` parsing is not modelled; the query's room value is a parameter.
- Cookie writing in ReadMsg (document.cookie) and all DOM updates (footer, cards, progress bar
  width) are left out; the progress bar's percentage is floating point and is left out.
- Client.SecondPersonFills and Client.ThirdPersonFills: proved for question texts built from
  the placeholders and literal text that contains no X and no '(' and does not glue a letter
  to a placeholder; a text where one replacement assembles a new placeholder is not covered.
- Client.EmojiOf: lone surrogates cannot occur in a Dafny string, so every character is a
  whole code point.
- The rest of public/sa.js (rendering, timers, animations, sockets) is not part of this model.
