# Network-centric programming labs, modelled in Dafny

This project models the core of a set of Go lab exercises:

- a line-based TCP chat/echo server: its message framing, its
  authentication manager and its per-connection dispatch loop;
- five katas: Luhn validation, Hamming distance, Scrabble scores, matching
  brackets and Minesweeper;
- two concurrency exercises: a character-frequency count that splits the text
  into chunks and merges the chunk counts, and a library seat simulation.

Each Go file becomes one Dafny module. Pure code is written as functions and
lemmas, and code that updates state becomes methods with loop invariants or
classes with `modifies` frames:

| module | Go file |
|---|---|
| `Wrappers` | `Option` and `Result` |
| `Strings` | the parts of Go's `strings` and `strconv` packages the code uses |
| `Protocol` | the message framing |
| `Utf8`, `Base64` | the UTF-8 and standard base64 encodings used to store passwords |
| `Auth` | the authentication manager |
| `Server` | the connection handler |
| `Luhn`, `Hamming`, `Scrabble`, `Brackets`, `Minesweeper` | the katas |
| `Frequency` | the character counter |
| `Library` | the seat simulation |

The models make no calls to randomness, clocks or sockets:

- Random numbers arrive as parameters: the session-id draws, the DNA
  letters, the mine positions and the study times.
- A connection is a sequence of incoming lines and a list of reply frames.
- Locks, goroutines, channels and wait groups are dropped. Each locked
  section becomes one atomic step.

## Model

| member | source | states |
|---|---|---|
| Strings.TrimSpace | lab3/tcp-socket/internal/protocol/mesage.go:77 | the trimmed line is a slice of the input that neither starts nor ends with white space |
| Strings.TrimSpaceStrips | lab3/tcp-socket/internal/protocol/mesage.go:77 | trimming white space around a core that has no white space at either end gives back exactly that core |
| Strings.TrimLeftSpaces | lab3/tcp-socket/internal/protocol/mesage.go:77 | leading white space in front of a text that does not start with white space is removed, and nothing more |
| Strings.TrimRightSpaces | lab3/tcp-socket/internal/protocol/mesage.go:77 | trailing white space after a text that does not end with white space is removed, and nothing more |
| Strings.TrimSpaceKeeps | lab3/tcp-socket/internal/protocol/mesage.go:77 | a non-empty text that neither starts nor ends with white space is left unchanged by trimming |
| Strings.SplitFirst | lab3/tcp-socket/internal/protocol/mesage.go:93-96 | splitting at the first separator: fails exactly when there is no separator; otherwise the line is head + separator + rest, and the head has no separator |
| Strings.SplitFirstJoin | lab3/tcp-socket/internal/protocol/mesage.go:103-108 | splitting a + sep + b, where a has no sep, gives back (a, b) |
| Strings.Atoi | lab3/tcp-socket/internal/protocol/mesage.go:98-101 | a parsed value fits in 64 bits, and the text starts with a sign or a digit; the empty text is rejected |
| Strings.AtoiIntToDecimal | lab3/tcp-socket/internal/protocol/mesage.go:98 | parsing the decimal text of any 64-bit integer gives the integer back |
| Strings.NatToDecimalValue | lab3/tcp-socket/internal/protocol/mesage.go:59-63 | the digits written for a natural number have that number as their value |
| Strings.IntToDecimalChars | lab3/tcp-socket/internal/protocol/mesage.go:59-63 | the decimal text of an id holds only digits and '-', so it never holds '_' or a space |
| Protocol.Encode | lab3/tcp-socket/internal/protocol/mesage.go:56-63 | every frame ends in a newline, and it holds no other newline when the command and payload have none |
| Protocol.EncodeFrame | lab3/tcp-socket/internal/protocol/mesage.go:59-63 | a non-AUTH frame is exactly decimal(id) + "_" + command + " " + payload + "\n" |
| Protocol.EncodeAuthIgnoresSession | lab3/tcp-socket/internal/protocol/mesage.go:59-60 | an AUTH frame is "AUTH " + payload + "\n" and does not depend on the session id |
| Protocol.EncodeTrimmed | lab3/tcp-socket/internal/protocol/mesage.go:59-77 | trimming a non-AUTH frame whose payload is non-empty and has no trailing white space only drops the newline |
| Protocol.FrameParts | lab3/tcp-socket/internal/protocol/mesage.go:59-101 | the trimmed frame of a non-AUTH message does not start with AUTH, splits at its first underscore into the decimal id and the rest, and the id parses back |
| Protocol.EncodeTrimmedEmpty | lab3/tcp-socket/internal/protocol/mesage.go:59-77 | with an empty payload, trimming also drops the space after the command |
| Protocol.FrameSplitsAtSessionId | lab3/tcp-socket/internal/protocol/mesage.go:84-101 | a frame does not look like AUTH, its first '_' follows the decimal id, and that id parses back |
| Protocol.SplitAtSpace | lab3/tcp-socket/internal/protocol/mesage.go:103-108 | a command with no space splits off at the space that follows it |
| Protocol.Decode | lab3/tcp-socket/internal/protocol/mesage.go:69-119 | every decoded command has no space, and every decoded payload is non-empty, with no trailing white space |
| Protocol.DecodeSplit | lab3/tcp-socket/internal/protocol/mesage.go:93-116 | a trimmed non-AUTH line that splits at '_' into a parsable id and a rest, and whose rest splits at a space, decodes to those three parts |
| Protocol.DecodeAuthSplit | lab3/tcp-socket/internal/protocol/mesage.go:84-90 | a trimmed line starting with AUTH that splits at a space decodes with session id 0 and those two parts |
| Protocol.DecodeEncode | lab3/tcp-socket/internal/protocol/mesage.go:56-116 | round trip: decoding the frame of a 64-bit id, a non-AUTH command with no space and a non-empty payload with no trailing white space gives the same message back; it is stated for `Decode` on the whole frame, which `ReadString` hands over as one line only when command and payload hold no newline |
| Protocol.DecodeEncodeAuth | lab3/tcp-socket/internal/protocol/mesage.go:59-90 | round trip for AUTH: the payload comes back, and the session id comes back as 0; as for `Protocol.DecodeEncode`, a payload with a newline would not arrive as one line |
| Protocol.DecodeAuthFamily | lab3/tcp-socket/internal/protocol/mesage.go:84-90 | any trimmed line starting with the text AUTH fails exactly when it has no space (with the format error), and otherwise decodes with id 0 and the word before the first space as command |
| Protocol.DecodeAuthWord | lab3/tcp-socket/internal/protocol/mesage.go:84-90 | any space-free word that starts with AUTH, followed by a space and a payload, decodes with id 0 and that word as the command |
| Protocol.AuthWord | lab3/tcp-socket/internal/protocol/mesage.go:84-88 | when a line starting with AUTH splits at its first space, the first word itself starts with AUTH |
| Protocol.DecodeAuthX | lab3/tcp-socket/internal/protocol/mesage.go:84-90 | the line "AUTHX y" decodes as command "AUTHX" with payload "y" and id 0, although AUTHX is not the AUTH command |
| Protocol.DecodeNoUnderscore | lab3/tcp-socket/internal/protocol/mesage.go:93-96 | a non-AUTH line without '_' fails with the format error |
| Protocol.DecodeBadSessionId | lab3/tcp-socket/internal/protocol/mesage.go:98-101 | a non-AUTH line whose text before the first '_' does not parse fails with "Session ID is not valid" |
| Protocol.DecodeNoPayloadSeparator | lab3/tcp-socket/internal/protocol/mesage.go:103-106 | a non-AUTH line whose rest after '_' has no space fails with the format error |
| Protocol.DecodeNegativeSessionId | lab3/tcp-socket/internal/protocol/mesage.go:98 | signed parsing accepts negative ids: "-5_X y\n" decodes with id -5 |
| Protocol.DecodeRejectsEmptyPayloadQuit | lab3/tcp-socket/internal/protocol/mesage.go:77-106 | the frame for QUIT with an empty payload, for any 64-bit id, is rejected with the format error |
| Protocol.DecodeLine | lab3/tcp-socket/internal/protocol/mesage.go:69-119 | corrected decoder: a decoded command has no space, and a decoded payload is empty or has no trailing white space |
| Protocol.DecodeLineExtendsDecode | lab3/tcp-socket/internal/protocol/mesage.go:69-119 | the corrected decoder agrees with the written one wherever that one succeeds, and it fails only where that one fails, with the same error |
| Protocol.DecodeLineEncode | lab3/tcp-socket/internal/protocol/mesage.go:56-116 | round trip for the corrected decoder: it also holds for an empty payload, which is what QUIT sends; as for `Protocol.DecodeEncode`, command and payload must hold no newline for the frame to arrive as one line |
| Protocol.DecodeLineNoPayload | lab3/tcp-socket/internal/protocol/mesage.go:103-106 | the corrected decoder reads a rest without a space as a command with an empty payload |
| Utf8.EncodeChar | lab3/tcp-socket/internal/auth/auth.go:36 | the UTF-8 bytes of a character: 1 to 4 bytes, with the lead byte telling the length and every other byte a continuation byte |
| Utf8.DecodeEncodeChar | lab3/tcp-socket/internal/auth/auth.go:36 | decoding a character's UTF-8 bytes gives the character back |
| Utf8.EncodeInjective | lab3/tcp-socket/internal/auth/auth.go:36-45 | two strings with the same UTF-8 bytes are equal |
| Base64.CharOf | lab3/tcp-socket/internal/auth/auth.go:36 | every 6-bit value has an alphabet character that decodes back to it |
| Base64.CharOfValueOf | lab3/tcp-socket/internal/auth/auth.go:36-40 | the alphabet character of a decoded value is the character that was decoded |
| Base64.Sextets | lab3/tcp-socket/internal/auth/auth.go:36 | three bytes become four 6-bit values, and these give the three bytes back |
| Base64.EncodeThreeShape | lab3/tcp-socket/internal/auth/auth.go:36 | with three or more bytes the encoding is the first group's four characters followed by the encoding of the rest, and those four characters' values give back the first three bytes |
| Base64.Encode | lab3/tcp-socket/internal/auth/auth.go:36 | the encoding uses only alphabet characters and '=' |
| Base64.EncodeLength | lab3/tcp-socket/internal/auth/auth.go:36 | n bytes encode to 4 * ceil(n / 3) characters |
| Base64.StripNewlines | lab3/tcp-socket/internal/auth/auth.go:40 | the decoder's input after removing the carriage returns and line feeds has none left |
| Base64.Decode | lab3/tcp-socket/internal/auth/auth.go:40-43 | a text that decodes has, without its line breaks, a length divisible by four |
| Base64.DecodeQuantaEncode | lab3/tcp-socket/internal/auth/auth.go:36-40 | the quanta of an encoding decode back to the bytes, including the two padded tails |
| Base64.DecodeEncode | lab3/tcp-socket/internal/auth/auth.go:36-40 | round trip: decoding the encoding of any bytes gives those bytes |
| Base64.DecodeIgnoresNewline | lab3/tcp-socket/internal/auth/auth.go:40 | a carriage return or line feed anywhere in the text does not change what it decodes to |
| Base64.StripAppend | lab3/tcp-socket/internal/auth/auth.go:40 | removing line breaks from a concatenation is removing them from each part |
| Auth.EncryptPassword | lab3/tcp-socket/internal/auth/auth.go:35-37 | the stored text decodes to exactly the UTF-8 bytes of the password |
| Auth.VerifyPassword | lab3/tcp-socket/internal/auth/auth.go:39-45 | a stored text that does not decode never verifies |
| Auth.VerifyEncrypt | lab3/tcp-socket/internal/auth/auth.go:35-45 | a plaintext verifies against the stored form of a password exactly when it equals the password |
| Auth.VerifyIgnoresNewline | lab3/tcp-socket/internal/auth/auth.go:39-45 | line breaks inside the stored text do not change whether a plaintext verifies |
| Auth.GenerateSessionId | lab3/tcp-socket/internal/auth/auth.go:96-104 | a draw gives an id of 100..999, which is never 0; a failed read of the random source gives an error |
| Auth.PickSession | lab3/tcp-socket/internal/auth/auth.go:69-77 | the retry loop ends with an id of 100..999 that is not live, or with the random source's error |
| Auth.PickSessionFirst | lab3/tcp-socket/internal/auth/auth.go:69-77 | the loop's result is the result of the first draw that fails or is free |
| Auth.SaturatedNeverStops | lab3/tcp-socket/internal/auth/auth.go:69-77 | with all 900 ids live, no successful draw ends the loop |
| Auth.Ids | lab3/tcp-socket/internal/auth/auth.go:96-104 | the id range holds exactly the integers lo..hi, and hi - lo + 1 of them |
| Auth.SaturatedCount | lab3/tcp-socket/internal/auth/auth.go:69-77 | a session table that holds every id has at least 900 sessions |
| Auth.FreeIdExists | lab3/tcp-socket/internal/auth/auth.go:69-77 | with fewer than 900 live sessions some id of 100..999 is free, so the loop can end |
| Auth.AuthenticateOutcome | lab3/tcp-socket/internal/auth/auth.go:47-86 | "User not found" exactly for unknown names; "Invalid Password" exactly for known names whose password does not verify; success only with a verified password and a fresh id of 100..999 |
| Auth.UserMap | lab3/tcp-socket/internal/auth/auth.go:20-32 | every user is stored under their own name |
| Auth.UserMapKeys | lab3/tcp-socket/internal/auth/auth.go:23-25 | the table's names are exactly the supplied users' names |
| Auth.UserMapLastWins | lab3/tcp-socket/internal/auth/auth.go:23-25 | when a name repeats, the last user with that name is the one stored |
| Auth.AuthManager.constructor | lab3/tcp-socket/internal/auth/auth.go:20-32 | the user table is the one built from the list, and there are no sessions |
| Auth.AuthManager.ValidateSession | lab3/tcp-socket/internal/auth/auth.go:88-94 | true exactly when the id is a live session |
| Auth.AuthManager.AuthenticateUser | lab3/tcp-socket/internal/auth/auth.go:47-86 | the result is `Authenticate`'s; a failure changes no table; success adds exactly one session under a fresh id; the user table never changes |
| Auth.AuthManager.NewSessionId | lab3/tcp-socket/internal/auth/auth.go:60-77 | the retry loop returns what `PickSession` gives: the first draw that fails or names an id that is not live decides |
| Server.Respond | lab3/tcp-socket/cmd/server/main.go:116-195 | a turn opens a session exactly when it authenticates an anonymous connection, with a fresh id of 100..999 for a known user; only a login changes the id; the loop ends exactly on a QUIT from an anonymous connection or with the bound id |
| Server.RespondKeepsBinding | lab3/tcp-socket/cmd/server/main.go:116-195 | every reply carries the connection's id after the turn, or 0 while anonymous; a bound id never changes |
| Server.RecordGrows | lab3/tcp-socket/cmd/server/main.go:135-146 | a turn never removes or changes a session and adds at most one |
| Server.RespondAnonymousGuard | lab3/tcp-socket/cmd/server/main.go:174-180 | an anonymous connection gets "Not authenticated" for every command except AUTH and QUIT, and nothing changes |
| Server.RespondAlreadyAuthenticated | lab3/tcp-socket/cmd/server/main.go:118-123 | a second AUTH on a bound connection gets "Already authenticated" under the bound id, and nothing changes |
| Server.RespondBadAuthFormat | lab3/tcp-socket/cmd/server/main.go:126-130 | an anonymous AUTH whose payload has no space gets "Invalid auth format" under id 0, and nothing changes |
| Server.RespondSessionMismatch | lab3/tcp-socket/cmd/server/main.go:153-188 | on a bound connection every command but AUTH, QUIT included, under a foreign id gets "Invalid session ID" under the bound id; the connection stays open and nothing changes |
| Server.RespondEcho | lab3/tcp-socket/cmd/server/main.go:183-195 | on a bound connection any command but AUTH and QUIT under the bound id is echoed as "Received command: <command> with payload: <payload>" under that id, and nothing changes |
| Server.RespondAuth | lab3/tcp-socket/cmd/server/main.go:125-146 | an AUTH message from an anonymous connection whose payload splits is answered with the failure text or binds the id that `Authenticate` gives |
| Server.SufficeAfterTurn | lab3/tcp-socket/cmd/server/main.go:104-195 | draws that let the retry loop end before a turn still do after it, since an anonymous connection leaves the live ids alone |
| Server.Converse | lab3/tcp-socket/cmd/server/main.go:104-195 | the read loop as written, over lines read with `Protocol.Decode`: a conversation always ends closed, with at most one reply per line |
| Server.ConverseTurn | lab3/tcp-socket/cmd/server/main.go:104-195 | on a line that `Protocol.Decode` accepts, the conversation is that turn's reply followed by the rest of the conversation |
| Server.ConverseStops | lab3/tcp-socket/cmd/server/main.go:104-109 | at the end of input or at a line `Protocol.Decode` rejects, the connection closes without a reply |
| Server.ConverseOneSession | lab3/tcp-socket/cmd/server/main.go:116-195 | over a whole conversation every live session is kept, at most one session is added, and an authenticated connection keeps its id |
| Server.ConverseStaysBound | lab3/tcp-socket/cmd/server/main.go:118-195 | once authenticated, the rest of the conversation adds no session and keeps the id |
| Server.ClientQuitGetsNoReply | lab3/tcp-socket/cmd/server/main.go:104-109 | the QUIT frame the client writes has an empty payload, is rejected by the decoder, and so ends the conversation with no reply at all, not even BYE |
| Server.QuitSaysGoodbye | lab3/tcp-socket/cmd/server/main.go:152-172 | a QUIT frame under the connection's own id whose payload the decoder keeps gets BYE with that id and ends the conversation |
| Server.TracksTurn | lab3/tcp-socket/cmd/server/main.go:104-195 | the read loop's invariant survives one answered line |
| Server.TracksStop | lab3/tcp-socket/cmd/server/main.go:104-109 | when the loop stops, what has been sent is the whole conversation's replies |
| Server.Connection.constructor | lab3/tcp-socket/cmd/server/main.go:79-101 | a new connection is anonymous with id 0 and has sent the welcome frame |
| Server.Connection.Handle | lab3/tcp-socket/cmd/server/main.go:116-195 | exactly one reply frame per message, and the state and session table that `Respond` gives |
| Server.Connection.HandleAuth | lab3/tcp-socket/cmd/server/main.go:116-150 | an AUTH message gets exactly one reply frame and the state and session table that `Respond` gives |
| Server.Connection.Login | lab3/tcp-socket/cmd/server/main.go:132-146 | a failed login leaves the connection and the sessions as they were and sends the failure text; a successful one binds the fresh id, records the session and sends it in the OK frame |
| Server.Connection.HandleOther | lab3/tcp-socket/cmd/server/main.go:152-195 | a QUIT or any other command gets exactly one reply frame and the state `Respond` gives, and opens no session |
| Server.Connection.Answer | lab3/tcp-socket/cmd/server/main.go:104-195 | answering one decoded line keeps the read loop's invariant |
| Server.Connection.Serve | lab3/tcp-socket/cmd/server/main.go:94-195 | after the read loop the connection is closed, and the frames sent and the session table are what `Converse` gives |
| Server.Connection.Close | lab3/tcp-socket/cmd/server/main.go:104-109 | when the loop stops, the connection is closed and holds the whole conversation's final state, sessions and replies |
| Luhn.Digits | lab1/Luhn/luhn.go:12-37 | the digits of the input, each below ten, no more of them than characters |
| Luhn.Contribution | lab1/Luhn/luhn.go:28-34 | an undoubled digit counts as itself; a doubled digit counts as 2d, less 9 when that exceeds 9 |
| Luhn.IsValidLuhn | lab1/Luhn/luhn.go:8-40 | the loops' result is `LuhnValid` of the input; ten or fewer digits are never valid |
| Luhn.DigitsAppend | lab1/Luhn/luhn.go:24-37 | the digits of a concatenation are the digits of the parts |
| Luhn.LuhnIgnoresNonDigit | lab1/Luhn/luhn.go:12-27 | any character that is not a digit, anywhere, does not change the verdict |
| Luhn.PositionalPrefix | lab1/Luhn/luhn.go:24-37 | dropping the last digit moves every other digit one place nearer the right end |
| Luhn.WeightedPositional | lab1/Luhn/luhn.go:24-37 | doubling from the right is doubling every second digit counted from the right end, starting with the second |
| Luhn.DigitsSpaced | lab1/Luhn/luhn.go:12-16 | a space between digit groups adds no digit |
| Luhn.DigitsOfDigits | lab1/Luhn/luhn.go:12-16 | a text of digits has exactly its own digit values |
| Luhn.SampleGrouped | lab1/Luhn/luhn.go:43-47 | "4539 3195 0343 6467" is valid |
| Luhn.SampleGroupedInvalid | lab1/Luhn/luhn.go:43-47 | "8273 1232 7352 0569" is not valid |
| Luhn.SampleShort | lab1/Luhn/luhn.go:43-47 | "79927398713" is valid |
| Hamming.Mismatches | lab1/hamming/hamming.go:15-21 | the number of differing positions is at most the length |
| Hamming.HammingDistance | lab1/hamming/hamming.go:10-22 | the loop's count is `Mismatches` of the two strands |
| Hamming.MismatchesCountsPositions | lab1/hamming/hamming.go:15-21 | the count is the size of the set of positions where the strands differ |
| Hamming.MismatchesZeroIffEqual | lab1/hamming/hamming.go:15-21 | the distance is 0 exactly for equal strands |
| Hamming.MismatchesSymmetric | lab1/hamming/hamming.go:15-21 | the distance does not depend on the order of the strands |
| Hamming.MismatchesAppend | lab1/hamming/hamming.go:15-21 | the distance of concatenated strands is the sum of the parts' distances |
| Hamming.MismatchesTriangle | lab1/hamming/hamming.go:15-21 | the triangle inequality |
| Hamming.SampleDistance | lab1/hamming/hamming.go:37-42 | the sample strands "GAGCCTACTAACGGGAT" and "CATCGTAATGACGGCCT" are 7 apart |
| Hamming.RandomDNA | lab1/hamming/hamming.go:25-34 | the strand has the requested length, and each letter is the picked one of A, C, G, T |
| Hamming.RandomDNAReachesAll | lab1/hamming/hamming.go:25-34 | every strand over A, C, G, T comes out for some picks |
| Scrabble.ToUpper | lab1/scrabble/scrabble.go:21 | small ASCII letters map to their capitals, and only the letters listed can become a table letter |
| Scrabble.Upper | lab1/scrabble/scrabble.go:21 | upper-casing a word keeps its length and maps every character |
| Scrabble.LetterValue | lab1/scrabble/scrabble.go:10-27 | a letter scores at most 10, and nothing exactly when it is not in the table |
| Scrabble.ScrabbleScore | lab1/scrabble/scrabble.go:9-28 | the loop's total is `Score` of the word, at most 10 per character |
| Scrabble.TableIsAlphabet | lab1/scrabble/scrabble.go:10-18 | the table holds exactly the 26 capital letters |
| Scrabble.TableValues | lab1/scrabble/scrabble.go:10-18 | each table value is 1, 2, 3, 4, 5, 8 or 10 |
| Scrabble.PointsAppend | lab1/scrabble/scrabble.go:23-27 | the points of a concatenation are the sum of the parts' points |
| Scrabble.ScoreAppend | lab1/scrabble/scrabble.go:19-27 | the score of a concatenation is the sum of the parts' scores |
| Scrabble.PointsBound | lab1/scrabble/scrabble.go:23-27 | at most 10 points per character, and 0 for the empty word |
| Scrabble.PointsIgnoresOthers | lab1/scrabble/scrabble.go:23-27 | a character missing from the table adds nothing, wherever it stands |
| Scrabble.ScoreIgnoresCase | lab1/scrabble/scrabble.go:21 | a word, its lower-case form and its upper-case form score the same |
| Brackets.OpenerOf | lab1/matching_brackets/mb.go:9 | each closer maps to an opener |
| Brackets.IsValidBrackets | lab1/matching_brackets/mb.go:7-25 | the stack loop's verdict is `Balanced` of the string |
| Brackets.RunAppend | lab1/matching_brackets/mb.go:11-22 | reading a concatenation reads the first part, then the second from the stack the first left |
| Brackets.RunFailureSticks | lab1/matching_brackets/mb.go:15-18 | once a closer fails, nothing read later recovers |
| Brackets.RunKeepsOpeners | lab1/matching_brackets/mb.go:13-14 | the stack only ever holds openers |
| Brackets.RunOnDeeperStack | lab1/matching_brackets/mb.go:11-22 | a run that does not fail leaves the stack below it untouched |
| Brackets.RunOther | lab1/matching_brackets/mb.go:11-22 | a character that is not a bracket leaves the stack as it is |
| Brackets.RunOpeners | lab1/matching_brackets/mb.go:13-14 | reading only openers pushes them all, in order |
| Brackets.IgnoresOthers | lab1/matching_brackets/mb.go:11-22 | characters other than the six brackets do not change the verdict |
| Brackets.EmptyAndLeftovers | lab1/matching_brackets/mb.go:24 | the empty string is balanced, and openers left on the stack make a string unbalanced |
| Brackets.MismatchIsFinal | lab1/matching_brackets/mb.go:15-18 | a closer meeting an empty stack or another opener condemns the string, whatever follows |
| Brackets.ConcatBalanced | lab1/matching_brackets/mb.go:11-24 | two balanced strings side by side are balanced |
| Brackets.WrapBalanced | lab1/matching_brackets/mb.go:11-24 | a balanced string inside a matching pair is balanced |
| Brackets.PairBalanced | lab1/matching_brackets/mb.go:11-24 | a matching pair with nothing inside is balanced |
| Brackets.SampleNested | lab1/matching_brackets/mb.go:29-35 | "([]{})" is balanced |
| Brackets.SampleCrossed | lab1/matching_brackets/mb.go:29-35 | "([)]" is not balanced |
| Brackets.SampleSiblings | lab1/matching_brackets/mb.go:29-35 | "{[()()]}" is balanced |
| Brackets.SampleDeep | lab1/matching_brackets/mb.go:29-35 | "{{[[(())]]}}" is balanced |
| Brackets.SampleWrongCloser | lab1/matching_brackets/mb.go:29-35 | "{[}" is not balanced: the closer meets the wrong opener |
| Minesweeper.MinesAround | lab1/minesweeper/ms.go:34-47 | a cell has at most 8 mines around it |
| Minesweeper.Annotated | lab1/minesweeper/ms.go:50-61 | the annotated board has the board's shape |
| Minesweeper.Cells | lab1/minesweeper/ms.go:14-21 | the array read as a grid, cell for cell |
| Minesweeper.CountMines | lab1/minesweeper/ms.go:34-47 | the loop over the eight directions counts the mines on the neighbouring cells inside the board |
| Minesweeper.MinesAroundLocal | lab1/minesweeper/ms.go:36-45 | the count depends only on the eight neighbouring cells |
| Minesweeper.CornerCount | lab1/minesweeper/ms.go:40-45 | a corner cell has at most 3 mines around it, because off-board neighbours are skipped |
| Minesweeper.AnnotationKeepsMines | lab1/minesweeper/ms.go:53-57 | an annotated cell is a mine exactly when it was one |
| Minesweeper.AnnotationOfEmpty | lab1/minesweeper/ms.go:53-57 | an empty cell becomes its count as a digit when it has neighbouring mines, and stays empty otherwise |
| Minesweeper.AnnotatedCounts | lab1/minesweeper/ms.go:50-61 | annotating keeps every mine and every count |
| Minesweeper.AnnotateIdempotent | lab1/minesweeper/ms.go:50-61 | annotating an annotated board changes nothing |
| Minesweeper.SameMinesSameCount | lab1/minesweeper/ms.go:34-47 | boards with the same mines give every cell the same count |
| Minesweeper.UpdateBoard | lab1/minesweeper/ms.go:50-61 | every cell of the board becomes its annotation in the board as it was before the call |
| Minesweeper.GenerateMinefield | lab1/minesweeper/ms.go:14-31 | a new 20 by 25 board of mines and empty cells, with exactly 99 mines, placed at the first picks that give 99 distinct cells |
| Minesweeper.EmptyBoard | lab1/minesweeper/ms.go:15-21 | a new 20 by 25 board whose every cell is empty |
| Minesweeper.MinesPlaced | lab1/minesweeper/ms.go:23-29 | a board whose mines sit exactly on a set of cells has that set as its mine set |
| Frequency.Occurrences | lab2/character_frequency/main.go:20-26 | a character occurs at most as often as the text is long |
| Frequency.CountCharacters | lab2/character_frequency/main.go:20-26 | the counting loop's map is `Frequencies` of the text |
| Frequency.FrequenciesSnoc | lab2/character_frequency/main.go:22-24 | one more character adds one to its count and changes no other entry |
| Frequency.FrequenciesMeaning | lab2/character_frequency/main.go:20-26 | a character is a key exactly when it occurs in the text, and its count is its number of occurrences |
| Frequency.OccursIffPresent | lab2/character_frequency/main.go:20-26 | a character has a positive count exactly when it occurs |
| Frequency.FrequenciesTotal | lab2/character_frequency/main.go:20-26 | the counts add up to the length of the text |
| Frequency.ChunkSizeCovers | lab2/character_frequency/main.go:32 | the rounded-up chunk size is positive for a non-empty text, and numCPU chunks cover the text |
| Frequency.ChunkCountBound | lab2/character_frequency/main.go:32-39 | no more than numCPU chunks can start inside the text |
| Frequency.SplitChunks | lab2/character_frequency/main.go:32-52 | the chunks, concatenated, are the text; each is non-empty and at most one chunk size long; there are at most numCPU of them; an empty text gives none |
| Frequency.Add | lab2/character_frequency/main.go:63-65 | merging two counts gives the union of their keys and the sum of the counts for each character |
| Frequency.AddInto | lab2/character_frequency/main.go:63-65 | the loop over one result's entries adds that result into the total |
| Frequency.Merge | lab2/character_frequency/main.go:61-66 | the merge loop gives the sum of all chunk results |
| Frequency.FrequenciesAppend | lab2/character_frequency/main.go:20-66 | counting a concatenation is adding the counts of the parts |
| Frequency.OccurrencesAppend | lab2/character_frequency/main.go:20-26 | occurrences in a concatenation add up |
| Frequency.Counted | lab2/character_frequency/main.go:47-51 | one count per chunk, each the frequencies of its chunk |
| Frequency.MergeCounted | lab2/character_frequency/main.go:39-66 | merging the counts of the chunks gives the counts of the whole text |
| Frequency.ProcessText | lab2/character_frequency/main.go:29-69 | splitting, counting each chunk and merging gives exactly `Frequencies` of the text |
| Frequency.EmptyText | lab2/character_frequency/main.go:32-39 | an empty text has chunk size 0 and an empty count |
| Frequency.AddCommutes | lab2/character_frequency/main.go:62-66 | merging is commutative |
| Frequency.AddAssociates | lab2/character_frequency/main.go:62-66 | merging is associative |
| Frequency.MergeOrderIrrelevant | lab2/character_frequency/main.go:50-66 | chunk results merged in any arrival order give the same total |
| Frequency.InsertByChar | lab2/character_frequency/main.go:114-116 | inserting an entry for a new character into an ascending list keeps it ascending, with one more entry |
| Frequency.SortByChar | lab2/character_frequency/main.go:114-116 | the sorted list has the same entries, in strictly ascending character order |
| Frequency.CollectEntries | lab2/character_frequency/main.go:108-111 | the collected list holds exactly the map's entries, each character once |
| Frequency.FrequencyList | lab2/character_frequency/main.go:106-116 | the printed table lists exactly the map's entries in strictly ascending character order |
| Frequency.ListedOnce | lab2/character_frequency/main.go:106-116 | in that table every key of the map appears at exactly one position, with its count |
| Library.IdIndex | lab2/iu/main.go:82-84 | the first position in the queue holding a student with the given id, or none when no student has it |
| Library.Without | lab2/iu/main.go:86 | removing one position keeps the other students in their order |
| Library.Library.constructor | lab2/iu/main.go:40-50 | a new library has all seats free, both queues empty and the clock at 0, and the seat bookkeeping holds |
| Library.Library.Tick | lab2/iu/main.go:161-164 | the clock advances one hour and nothing else changes |
| Library.Library.EnterLibrary | lab2/iu/main.go:53-74 | the arrival time becomes the current hour; with a free seat the student joins the end of the studying queue and takes a seat, otherwise the student joins the end of the waiting queue; the bookkeeping holds |
| Library.Library.LeaveLibrary | lab2/iu/main.go:77-128 | a student who is not studying changes nothing, neither the queues nor any time of that student or of the head of the waiting queue; otherwise the first studying student with that id leaves and the leave time is the current hour; the head of the waiting queue, if any, takes the seat at the end of the studying queue with the current hour as arrival time; no other arrival or leave time changes; the bookkeeping holds |
| Library.Library.SeatsInRange | lab2/iu/main.go:57-101 | with non-negative capacity the free seats stay within 0..capacity, and nobody waits while a seat is free |
| Library.MakeStudents | lab2/iu/main.go:137-143 | 100 students with ids 1 to 100 and study times of 1 to 4 hours |
| Library.IdsDistinct | lab2/iu/main.go:140 | the generated students have distinct ids |
| Library.MaxLeaveTime | lab2/iu/main.go:193-202 | the result is at least 0 and every leave time, and it is either 0 or one of the leave times |

## Left out

- Socket I/O is out: the listener, the accept loop and its goroutines, the buffered line reader and write errors. A connection is a sequence of lines, and the sent frames are kept as messages; `Protocol.Encode` gives their text.
- Locks, goroutines, channels and wait groups are out. This covers the mutexes in the authentication manager and the library, the clock goroutine, the chunk workers and the results channel. Every locked section runs as one step. The order in which chunk results arrive is covered by `Frequency.MergeOrderIrrelevant`.
- Hamming.HammingDistance: the Go function panics when the strands differ in length; the model requires equal lengths instead and has no panic path.
- `ReadString('\n')` splitting the byte stream into lines is not modelled: the server takes a sequence of lines, and the round-trip lemmas decode a whole frame, so a command or payload holding a newline, which the real reader would cut at that newline, is outside what they describe.
- The server model reads lines with the decoder as written, `Protocol.Decode`. The corrected decoder `Protocol.DecodeLine` is proved on its own (`Protocol.DecodeLineEncode`, `Protocol.DecodeLineExtendsDecode`) but no server loop runs on it.
- `Auth.ErrorText` gives a fixed placeholder text for a failed read of the random source, where Go forwards whatever message the reader's error carries.
- `time.Sleep` is out. In the library, a student's stay and the later `LeaveLibrary` call become separate calls made by the caller.
- The random sources are out. `crypto/rand`, `math/rand` and `rand.Shuffle` become caller-supplied draws and picks. Each draw is assumed to be within the range the generator promises. The arrival order of the students is whatever order the caller uses.
- Auth.AuthenticateUser and Server.Connection.Serve need, as a precondition, a draw sequence in which some draw fails or gives a free id. Without one, the retry loop would spin forever once all 900 ids are live (`Auth.SaturatedNeverStops`).
- The user store is out. Its file system, JSON and gob encoding are not part of this model, so the user list is a constructor parameter.
- The client program, the guessing game (all its bodies are empty) and the plain data declarations are not part of this model. The client compares its login reply against a different spelling of the success message, so it never marks itself as logged in. That is client code and is not modelled.
- Strings are sequences of Unicode code points, and the following consequences hold:
  - `unicode.IsDigit` is taken as ASCII '0'..'9' in the Luhn kata. Go also accepts other Unicode decimal digits, which its own arithmetic then mistreats.
  - `strings.ToUpper` is modelled only as far as the Scrabble table can tell.
  - Go's byte indexing is read as character indexing in the Hamming distance and in the text chunking. The two agree on ASCII text. On multi-byte text, Go compares bytes and can split a character across two chunks.
  - Invalid UTF-8 input is not modelled.
- `runtime.NumCPU` is a positive parameter. Reading the input file or standard input and printing the table are out. `Frequency.FrequencyList` models the building and ordering of the printed table.
- `Frequency.SortByChar` is an insertion sort on values. Go's `sort.Slice` sorts the slice in place. Only the result is modelled: the same entries in ascending order. The in-place algorithm is not.
- `Minesweeper.GenerateMinefield` draws mine positions from a caller-supplied sequence of picks and requires at least 99 distinct cells among them. Go draws until 99 mines are placed, which need not terminate for an adversarial generator.
- `SimulateDay` is out beyond the student generation and the closing-time computation. Its arrival and clock goroutines are scheduling.
- `Library.Library.LeaveLibrary` does not model the wait-group bookkeeping or the goroutine that later makes the admitted student leave.

## Findings

| source | as written | input that shows it | evidently intended | confidence | as-written member | corrected member |
|---|---|---|---|---|---|---|
| lab3/tcp-socket/internal/protocol/mesage.go:77-106 | the decoder trims the line before it looks for the space between command and payload, so a frame with an empty payload has no such space left and is rejected | the client's QUIT frame "123_QUIT \n" (session 123, empty payload) decodes to the format error, and the server closes the connection without its BYE (`Server.ClientQuitGetsNoReply`) | a rest with no space is a command with an empty payload, so the QUIT frame the client sends is understood | not executed | Protocol.DecodeRejectsEmptyPayloadQuit | Protocol.DecodeLineEncode |
