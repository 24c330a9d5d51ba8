# A verified model of the CCTV command server

The server answers newline-terminated text commands on TLS connections, one
thread per connection, over four stores: user accounts, the history of traffic
events, image files and the overlay configuration. This project models the
server above OpenSSL, SQLite and the file system and proves what its protocol,
its stores and its concurrency guarantee.

Run `dafny verify dfyconfig.toml` to check everything.

## How the program maps to the model

| module (file) | models |
|---|---|
| `Text` (Text.dfy) | whitespace, words, decimal numbers, `std::istringstream` extraction (also of signs, overflow and junk), bytewise text order |
| `EndianUtils` (EndianUtils.dfy) | `htonll`, `ntohll` on bit-vectors, memory images of words |
| `Images` (ImageHandler.dfy) | the connection, `ImageHandler`, what is said of uploads and downloads |
| `Session` (TcpServer.dfy) | `TcpServer::handleClientSSL`, and as functions of the bytes what it does (`Serve`), what becomes of the stores (`WorldAfter`) and what it sends (`Replies`) |
| `SessionProofs` (SessionProofs.dfy) | cuts of the stream, which requests arrive as sent, refused uploads |
| `Wire` (Wire.dfy) | what a client reads: replies line by line, LOGIN and download at the end of a stream |
| `ConcurrentUploads` (ConcurrentUploads.dfy) | interleaved uploads as a state machine |
| `Users`, `Accounts` (UserRepository.dfy, Accounts.dfy) | the users table, the account commands step by step |
| `Linearizability` (Linearizability.dfy) | any number of account commands, steps interleaved, any step failing |
| `Interleavings` (Interleavings.dfy) | any number of commands of all kinds but CHANGE_FRAME, steps interleaved |
| `HistoryTable`, `Views` (HistoryRepository.dfy, HistoryViews.dfy) | the history table, the four queries, their JSON rows |
| `Paging`, `Dates` (Paging.dfy, Dates.dfy) | pages of a resting and of a growing table, dates as text |
| `Overlay` (Overlay.dfy) | CHANGE_FRAME |
| `CommandLine`, `Commands`, `ServerRuns` (CommandLine.dfy, CommandHandler.dfy, ServerRuns.dfy) | splitting a line, `CommandHandler`, whole runs of commands |
| `HistoryAnswers` (HistoryAnswers.dfy) | what clients learn of the history, page by page, while rows are added or queries fail |

Code that works step by step is imperative here too: `SslConnection`,
`ImageHandler`, `TcpServer`, the two repositories, `OverlayFile`,
`IStringStream` and `CommandHandler` are classes whose methods have the loops
and early returns of the original. Each method is proved to compute a function
of its inputs and the old state, and the lemmas are about those functions. In
`SslConnection.Read` the number of bytes a read returns is left open, so a
result proved of a session holds for every way the stream is split.

What the program cannot control is a parameter: whether a database call, a file
or a write fails, the SHA-256 digest, the text-to-float conversion and
rounding, the JSON text of a command's reply, the sorter's order on rows of
equal date, and the values that
`filesize` and `eventType` happen to hold when a line lacks the token
(src/server/TcpServer.cpp:147, src/server/CommandHandler.cpp:220: neither is
initialised).

## What the proofs found

- A client's requests arrive as sent exactly when each one, in its turn, is a
  line that is no upload or download, or a non-empty body under a valid name
  that is free and for which the disk works (`RequestsArriveWhen`, which assumes
  nothing of the requests). An upload of a taken or invalid name, or of one
  whose file cannot be opened, is refused before its body is read, so the body
  is read as requests (`BodyIsServed`, `RefusedBodyIsRequests`); for the invalid
  name "../x" see `DotDotLeavesBody`.
- The reply to an upload line without a name or with size 0 ends in a
  backslash and an n instead of a newline (src/server/TcpServer.cpp:151), so a
  client that reads one line for each request waits for its end
  (`EmptyUploadWaits`). A client whose requests may otherwise be sent stays in
  step exactly when it uploads no empty body (`StaysInStepWhen`); over any
  stream without downloads, exactly when no upload line is malformed
  (`InStepWhen`).
- ADD_HISTORY means to accept the event types 0, 1 and 2. It also accepts a
  type word without a leading number, which it records as type 0, dropping the
  words after it; a type word such as "1x", whose "x" it reads as the next word;
  and no type word at all if the uninitialised `eventType` happens to hold 0, 1
  or 2, which it records (src/server/CommandHandler.cpp:220). `WordsAccepted`
  and `LineAccepted` give the exact condition and row over all words,
  `RecordedAsSaid` says when the row is what the words say, and
  `UntypedLinesRecorded` and `ShiftedLineRecorded` have a line of each kind.
- A REGISTER can answer 500 where 409 is meant. Its insert answers 500 exactly
  if the database fails it, the email was registered to begin with or a
  REGISTER of it has succeeded (`InsertRefusedWhen`). After a lookup the
  database did not fail that takes another REGISTER of the email between the two
  steps (`LostRace`; `RaceIsLost` is such a run); after a failed lookup it
  takes none (`FailedLookupRefused`).
- A history query the database fails to prepare is answered 200 with no rows
  (src/db/HistoryRepository.cpp:44-46), which a client reading pages takes for
  the last page. On a table at rest the client has everything exactly if its
  last query did not fail or no row was left for it (`WalkAtRest`);
  `FailedQueryHidesRow` is a table of one row that looks empty.
- The comment at include/db/model/History.hpp:10 exchanges event types 0 and
  1; the model follows the code (0 is illegal parking, 1 is speeding). The
  README of the server shows requests such as `email=..&password=..`; the code
  reads whitespace-separated words, and so does the model.

## Model

| member | source | states |
|---|---|---|
| EndianUtils.NetworkOrder | src/util/EndianUtils.cpp:3-9 | for every 64-bit value the memory bytes of `htonll` are those of the value reversed, that is network byte order (Appendix B of RFC 791) |
| EndianUtils.MutualInverses | src/util/EndianUtils.cpp:3-17 | `ntohll` undoes `htonll` and the other way round |
| EndianUtils.ByteOrderExample | src/util/EndianUtils.cpp:3-9 | one word as it lies in memory before and after |
| EndianUtils.WordRoundTrip | src/server/ImageHandler.cpp:70-73 | a word built from the base-256 digits of a size below 2^64 holds that size |
| Images.PrefixIsBigEndian | src/server/ImageHandler.cpp:73-74 | the eight bytes written before a file are the digits of its size, most significant first |
| Images.PrefixCharacters | src/server/ImageHandler.cpp:73-74 | each of the eight characters before a file as a quotient of its size modulo 256, the last being the size modulo 256 |
| Images.Judged | src/server/ImageHandler.cpp:19-34 | for every store, name and size: 400 exactly for an empty name, a separator, two dots in a row or size 0; then 409 exactly for a path below `images/` that exists; then 500 if the file does not open |
| Images.DownloadRoundTrip | src/server/ImageHandler.cpp:61-93 | a client that decodes the prefix with `ntohll` and reads that many bytes recovers every file below 2^64 bytes, whatever follows |
| Images.SslConnection.Read | src/server/ImageHandler.cpp:40 | a read returns any positive number of the next bytes up to the limit, none only at the end |
| Images.ImageHandler.HandleImageUpload | src/server/ImageHandler.cpp:14-59 | a refused upload reads nothing and changes nothing; an accepted one reads exactly `filesize` bytes, or all that come, and leaves the whole body as one new file or the store as it was; the reply text of each outcome |
| Images.ImageHandler.HandleGetImage | src/server/ImageHandler.cpp:61-93 | what is sent is the file's frame, or the 404 text for a missing file, whole if no write fails and otherwise a beginning of it; the loop ends for every size |
| Session.TcpServer.ReadLine | src/server/TcpServer.cpp:127-138 | a line is everything up to and including the next newline; without one nothing is handled |
| Session.TcpServer.ServeUpload | src/server/TcpServer.cpp:144-157 | one upload line leads to the outcome `Upload` gives: store, event, and stream position after the body or after the line; the reply of that event is sent |
| Session.TcpServer.ServeImage | src/server/TcpServer.cpp:158-171 | a download sends the frame of the named file, the 404 text if there is none, or the 400 text if no path is named |
| Session.TcpServer.ServeCommand | src/server/TcpServer.cpp:172-176 | any other line changes the stores as the command handler does, and its reply is sent with a newline at its end |
| Session.TcpServer.HandleClientSSL | src/server/TcpServer.cpp:125-179 | framing refinement: for every stream and every splitting of reads the image store, the events and their positions are those of `Serve`, a function of the bytes; the other stores are as the command lines among the events leave them; what is sent is the reply to each event in turn, all of it if writes succeed and otherwise a beginning; true is returned exactly after a download |
| Session.OneMoreEvent | src/server/TcpServer.cpp:139-176 | one more event appends its reply to what is sent and changes the stores only if it is a command |
| SessionProofs.CutSession | src/server/ImageHandler.cpp:26-58 | all or nothing: after the first k bytes the events are exactly those that lie within them plus the report of the one upload torn at k, and the store holds exactly the uploads that lie within them |
| SessionProofs.SessionExplained | src/server/ImageHandler.cpp:26-58 | the final store keeps every initial file, holds for each stored upload exactly the bytes of the stream that follow its line, and nothing else |
| SessionProofs.EventsInOrder | src/server/TcpServer.cpp:125-179 | events end at increasing positions, and each accepted body starts no earlier than the end of the first line read |
| SessionProofs.SessionRoundTrip | src/server/TcpServer.cpp:126-157 | printing any list of sendable requests, bodies of arbitrary bytes included, and serving them gives exactly those requests as events at the right positions, whatever follows |
| SessionProofs.ClientLinesArrive | src/server/TcpServer.cpp:125-179 | exactly the client's command lines are handled, in order, whatever images are uploaded between them, and the store gains exactly those images |
| SessionProofs.HeaderArguments | src/server/TcpServer.cpp:145-148 | the printed header `UPLOAD name size` is read back as its name and size |
| SessionProofs.OnlySendableArrive | src/server/TcpServer.cpp:126-157 | if a session's events begin with the requests as meant, every request was sendable in its turn, whatever its text, and the disk worked for every upload |
| SessionProofs.RequestsArriveWhen | src/server/TcpServer.cpp:126-157 | for all requests and all disks: they arrive as meant if and only if each is sendable in its turn and the disk works for each upload |
| SessionProofs.BodyIsServed | src/server/ImageHandler.cpp:19-34 | after a printed upload that may not be sent or whose file cannot be opened the session goes on right behind its header: 400 for an invalid name, 409 for a taken one, 500 for a file that does not open, malformed for an empty body |
| SessionProofs.RefusedBodyIsRequests | src/server/ImageHandler.cpp:19-34 | when the refused body reads as requests, they are carried out, uploads included |
| SessionProofs.InvalidNameLeavesBody | src/server/ImageHandler.cpp:19-24 | for every invalid name: the upload is refused with 400 and the one line of its body handled as a command |
| SessionProofs.DotDotLeavesBody | src/server/ImageHandler.cpp:19-24 | a concrete stream: "../x" is refused and "LOGIN a b" handled |
| SessionProofs.StoredNames | src/server/ImageHandler.cpp:19-24 | no session ever stores a file whose name has a separator, two dots in a row or a blank, or whose body is empty |
| SessionProofs.UnwrittenIsSkipped | src/server/ImageHandler.cpp:51-55 | an upload that cannot be written in full is read to its end, leaves no file, and the session goes on behind it |
| SessionProofs.SizelessArguments | src/server/TcpServer.cpp:147-148 | an upload line without a size is taken with whatever value `filesize` holds |
| SessionProofs.BareTransfers | src/server/TcpServer.cpp:150-168 | UPLOAD alone is malformed, GET_IMAGE alone ends the session without a file |
| Wire.ReplyTexts | src/server/ImageHandler.cpp:19-55 | the bytes sent for each upload that is not stored |
| Wire.TransferTexts | src/server/ImageHandler.cpp:57-90 | the bytes sent for a stored upload, for a download and for one that names no file or a missing one |
| Wire.ReplyIsLine | src/server/TcpServer.cpp:150-176 | every reply of a session that goes on is one line, except the one to a malformed upload, which has no newline |
| Wire.InStepWhen | src/server/TcpServer.cpp:150-176 | over any stream without downloads, a client reads back exactly one line for each event if and only if no upload line was malformed |
| Wire.StaysInStepWhen | src/server/TcpServer.cpp:150-176 | for requests that may be sent in their turn or are uploads of an empty body: the client reads back one line for each event if and only if no upload has an empty body |
| Wire.EmptyUploadWaits | src/server/TcpServer.cpp:150-152 | the stream "UPLOAD a 0" with its newline is answered without one, and no line can be read |
| Wire.PrintedSession | src/server/TcpServer.cpp:125-179 | a printed stream of commands and uploads leaves the client's images in the store and the other stores as its command lines in order leave them; each request that is not blank is answered with one line |
| Wire.LoginOnTheWire | src/server/CommandHandler.cpp:82-115 | after any printed requests, uploads among them, the last line read for a LOGIN says 200 exactly when the digest is that of the email's last successful password among them or, without one, of the initial table |
| Wire.UploadThenDownload | src/server/TcpServer.cpp:144-171 | a client that uploads images among other requests and then asks for one reads a line for each request and then the frame of that image, unchanged |
| ConcurrentUploads.RunShows | src/server/ImageHandler.cpp:19-58 | for uploads of distinct names, some of them perhaps taken or invalid: in every state of every interleaving the path of an admitted upload holds a beginning of the bytes it has received (the output stream may keep some back), that of any other what it held, and every other path is untouched |
| ConcurrentUploads.ActAdvances | src/server/ImageHandler.cpp:19-58 | every step takes its upload further, so each ends after finitely many; a file that does not open ends it and changes nothing |
| ConcurrentUploads.NoPartialFile | src/server/ImageHandler.cpp:19-56 | once all uploads have finished each kept file is there whole, was admitted on the initial store, and every other path holds what it held |
| ConcurrentUploads.InterleavingIsSerial | src/server/ImageHandler.cpp:26-58 | any interleaving that finishes leaves the same store as the uploads run one after another, in any order, with the same outcomes |
| ConcurrentUploads.SessionUploadsAlone | src/server/ImageHandler.cpp:14-59 | an upload in that serial order, refused or not, does what a session nobody interferes with does |
| Users.Find | src/db/UserRepository.cpp:34-59 | the lookup returns a row with the email, and none only if no row has it |
| Users.SetHash | src/db/UserRepository.cpp:90-112 | the update changes the hash of the rows with the id and nothing else |
| Users.UserRepository.CreateUser | src/db/UserRepository.cpp:7-31 | succeeds exactly if no row has the email and the database does not fail; then one entry is added to the map from email to hash |
| Users.UserRepository.GetUserByEmail | src/db/UserRepository.cpp:34-59 | a row that is found is in the table and has the email; if none is found no row has it or the lookup failed |
| Users.UserRepository.UpdateUserPassword | src/db/UserRepository.cpp:90-112 | succeeds unless the database fails; if the id names an email, exactly that email's entry in the map changes |
| Users.InsertAccounts | src/db/UserRepository.cpp:7-31 | an insert keeps ids and emails unique and adds one entry to the map from email to hash |
| Users.SetHashAccounts | src/db/UserRepository.cpp:90-112 | updating the id a lookup gave changes exactly the entry of the email looked up |
| Users.NamesStays | src/db/DBInitializer.cpp:7-14 | an id goes on naming the same email through every insert and update |
| Accounts.HashToHex | src/server/CommandHandler.cpp:57-61 | the loop prints for byte i, at 2i and 2i + 1, the lower-case hex digits of its high and its low half |
| Accounts.HexLength | src/server/CommandHandler.cpp:57-61 | the printed digest is twice as long as the digest |
| Accounts.HexInjective | src/server/CommandHandler.cpp:57-61 | different digests print differently |
| Accounts.StepRefines | src/server/CommandHandler.cpp:40-150 | a database step that finishes a command is one atomic operation on the map from email to hash with a reply the map allows; any other step changes nothing |
| Accounts.SoloRefines | src/server/CommandHandler.cpp:40-150 | a command alone acts on the map as its reply says, and without failures never answers 500 |
| Linearizability.RunLinearized | src/server/CommandHandler.cpp:40-150 | for any commands and any interleaving of their steps, failures included, the commands in the order of their deciding steps are a sequential run of the map with the same replies and the same final table; each finished command is there once; pending updates hold an id that still names their email |
| Linearizability.LogGrows | src/server/TcpServer.cpp:109-120 | what is decided stays decided in the same order, so the sequential order respects real time |
| Linearizability.OneRegistration | src/server/CommandHandler.cpp:49-76 | each email has at most one successful REGISTER, none if it was registered before |
| Linearizability.InsertRefusedWhen | src/server/CommandHandler.cpp:49-76 | in every run, whatever the lookup met, a REGISTER's insert answers 500 if and only if the database fails it, the email was registered to begin with, or a REGISTER of the email has succeeded |
| Linearizability.LostRace | src/server/CommandHandler.cpp:49-76 | when the database fails neither its lookup nor its insert, a REGISTER that found its email free answers 500 if and only if another REGISTER of the email succeeded between its two steps |
| Linearizability.FailedLookupRefused | src/server/CommandHandler.cpp:49-76 | a concrete run of one REGISTER whose lookup is failed: the email was there, and it answers 500 |
| Linearizability.RaceIsLost | src/server/CommandHandler.cpp:49-76 | a concrete run of two REGISTERs in which one answers 500 and the other's hash is stored |
| Interleavings.StepDecides | src/server/CommandHandler.cpp:40-463 | a step that decides a command does to the stores what the whole command does and gives its reply, up to a REGISTER's 500 for 409; any other step changes nothing and what the command then relies on holds |
| Interleavings.AccountWaits | src/server/CommandHandler.cpp:40-150 | the first step of an account command is its lookup alone: REGISTER goes on exactly if it finds nothing, RESET_PASSWORD exactly if it finds the email, LOGIN never |
| Interleavings.QueryWaits | src/server/CommandHandler.cpp:163-169 | the first step of a query is its lookup alone; its rows are those of the table at its second step |
| Interleavings.PendingStays | src/db/DBInitializer.cpp:7-14 | no other command takes away what a pending one relies on: an id goes on naming its email, a client stays registered |
| Interleavings.AnyInterleaving | src/server/TcpServer.cpp:109-120 | any commands but CHANGE_FRAME, database failures included, their lookups, inserts, updates and selects interleaving freely: in the order of their deciding steps they are a sequential run of the server with the same stores and replies, up to a REGISTER's 500 for 409; each finished command is in it once |
| Interleavings.DecidedStays | src/server/TcpServer.cpp:109-120 | what is decided stays decided in the same order, so the sequential run respects real time |
| Interleavings.InterleavedHistory | src/server/CommandHandler.cpp:217-249 | in every state of every interleaving the history has only grown and keeps its invariant |
| Interleavings.InterleavedAccounts | src/server/CommandHandler.cpp:40-150 | in every state each email has the hash of the last password set by a decided command, or what it had at the start |
| HistoryTable.SortedCorrect | src/db/HistoryRepository.cpp:41 | the ordered rows are a permutation of the table in strictly descending date order, ties broken by the fixed order |
| HistoryTable.OrderIsUnique | src/db/HistoryRepository.cpp:41 | there is only one such list |
| Views.Cleaned | src/db/HistoryRepository.cpp:102-115 | a cleaned row has snapshots for type 0 only and a speed for type 1 only; all else is as it was |
| HistoryTable.HistoryRepository.CreateHistory | src/db/HistoryRepository.cpp:7-36 | appends the row behind all others under an id above theirs, or fails and changes nothing |
| HistoryTable.SortedRows | src/db/HistoryRepository.cpp:41 | whatever the order, a query neither loses nor repeats a row |
| HistoryTable.HistoryRepository.GetHistories | src/db/HistoryRepository.cpp:39-69 | returns the page of all rows, uncleaned, or no rows when the query fails |
| HistoryTable.HistoryRepository.GetHistoriesByEventType | src/db/HistoryRepository.cpp:71-122 | returns the cleaned page of the rows of one type, or no rows when the query fails |
| HistoryTable.HistoryRepository.GetHistoriesByDateRange | src/db/HistoryRepository.cpp:125-183 | returns the cleaned page of the rows within two dates, or no rows when the query fails |
| HistoryTable.HistoryRepository.GetHistoriesByEventTypeAndDateRange | src/db/HistoryRepository.cpp:186-243 | returns the cleaned page of the rows of one type within two dates, or no rows when the query fails |
| Paging.StaticPaging | src/db/HistoryRepository.cpp:39-69 | on an unchanged table the answers at offsets 0, L, 2L, ... up to the first short one make up the whole filtered, ordered list, each row exactly once |
| Paging.GrowthShifts | src/db/HistoryRepository.cpp:39-243 | when rows are appended, a row of an answer only moves towards its end |
| Paging.NothingSkipped | src/db/HistoryRepository.cpp:39-243 | pages read from a growing table up to a short one contain every matching row of the first table |
| Dates.DateTextOrder | src/db/HistoryRepository.cpp:132-136 | text order on `YYYY-MM-DD HH:MM:SS` is numeric order on (year, month, day, hour, minute, second) |
| Dates.RangeIsDays | src/server/CommandHandler.cpp:332-344 | the date filter admits exactly the rows whose day lies in the range, both ends included |
| Views.CleaningUnseen | src/db/HistoryRepository.cpp:102-115 | cleaning a row in the repository never shows in the JSON the handlers make of it |
| Views.AllAndDatesAgree | src/server/CommandHandler.cpp:169-205 | GET_HISTORY and a date range that covers every stored date return the same data, page by page |
| Views.FilterSorted | src/db/HistoryRepository.cpp:73-76 | filtering an ordered answer gives the ordered answer of the filtered table |
| Views.CombinedIsEither | src/db/HistoryRepository.cpp:194-198 | the type-and-date query's rows, before paging, are those of either single query filtered by the other condition, in the same order |
| Views.NoRowDropped | src/server/CommandHandler.cpp:273-309 | when all types are 0, 1 or 2 the typed handlers drop no row and keep the order |
| Views.TypedWithinFull | src/server/CommandHandler.cpp:271-309 | a typed row's members are members of the full row with the same values |
| CommandLine.QueryParses | src/server/CommandHandler.cpp:152-160 | the words of a printed query, its numbers of either sign, are read back as its arguments, with limit 10 and offset 0 when left out, for all four queries |
| CommandLine.QueryLineRoundTrip | src/server/CommandHandler.cpp:13-35 | a printed query line, ended by LF or CRLF, is split into its command name and a payload that parses to its arguments |
| CommandLine.SplitTrimmed | src/server/CommandHandler.cpp:13-21 | tabs, returns and newlines around the word before the first space do not matter; the payload is what follows the space up to the newline |
| CommandLine.SplitBare | src/server/CommandHandler.cpp:13-21 | a line without a space is its trimmed word and an empty payload |
| ServerRuns.Dispatch | src/server/CommandHandler.cpp:23-34 | which handler each of the eleven command words reaches, and that any other word reaches none |
| Commands.CommandHandler.HandleRegister | src/server/CommandHandler.cpp:40-80 | reads two words and acts as REGISTER's two database steps in a row |
| Commands.CommandHandler.HandleLogin | src/server/CommandHandler.cpp:82-115 | reads two words and acts as LOGIN's one database step |
| Commands.CommandHandler.HandleResetPassword | src/server/CommandHandler.cpp:117-150 | reads two words and acts as RESET_PASSWORD's two database steps in a row |
| Commands.CommandHandler.HandleAddHistory | src/server/CommandHandler.cpp:217-249 | stores the row its words describe, or answers 400 or 500 and stores nothing |
| Commands.CommandHandler.FullData | src/server/CommandHandler.cpp:171-205 | the loop gives every row as an object with all eight members, unused ones blank or null |
| Commands.CommandHandler.TypedData | src/server/CommandHandler.cpp:273-309 | the loop gives each row of a known type as an object with that type's members, in order |
| Commands.CommandHandler.HandleGetHistory | src/server/CommandHandler.cpp:152-214 | 400 for bad arguments, 404 for an unknown email, otherwise the page of all rows, empty when the query fails |
| Commands.CommandHandler.HandleGetHistoryByEventType | src/server/CommandHandler.cpp:253-318 | the same for rows of one type |
| Commands.CommandHandler.HandleGetHistoryByDateRange | src/server/CommandHandler.cpp:324-390 | the same for rows of a range of days |
| Commands.CommandHandler.HandleGetHistoryByEventTypeAndDateRange | src/server/CommandHandler.cpp:394-463 | the same for rows of one type in a range of days |
| Commands.CommandHandler.HandleLine | src/server/CommandHandler.cpp:13-35 | a line changes the three stores and replies as `Handle` says |
| Overlay.OverlayFile.HandleChangeFrame | src/server/CommandHandler.cpp:466-534 | the file and reply code are those of `ChangeFrame`; early returns leave the file as it was |
| ServerRuns.ChangesAsked | src/server/CommandHandler.cpp:466-520 | the changes that some payload makes are exactly the legal ones: a level in 0..100 with mode sharp, another mode without one, or a flag |
| Overlay.RunCoherent | src/server/CommandHandler.cpp:500-520 | through any commands `sharpness_level` is present, within 0..100, exactly when the mode is "sharp" |
| Overlay.RunOverlays | src/server/CommandHandler.cpp:466-534 | after any commands each setting is as the last successful change to it left it, or as it was |
| ServerRuns.RunHistory | src/server/CommandHandler.cpp:217-249 | any commands only append history rows and keep ids increasing, types within 0..2 and speeds non-negative and only on type 1 |
| ServerRuns.RunOverlay | src/server/CommandHandler.cpp:13-35 | the overlay file after any commands is that after the CHANGE_FRAME commands among them |
| ServerRuns.RunUsers | src/server/CommandHandler.cpp:13-35 | a registered email stays registered through any commands |
| ServerRuns.RunAccounts | src/server/CommandHandler.cpp:40-150 | after any commands, failed ones included, the users table holds for each email the hash of its last successful password, or what it held at the start |
| ServerRuns.LoginOverRuns | src/server/CommandHandler.cpp:82-115 | on any valid users table, LOGIN succeeds exactly when the email's last successful REGISTER or RESET_PASSWORD had a password of the same digest or, without one, the table held that hash at the start |
| ServerRuns.AccountTextRoundTrip | src/server/CommandHandler.cpp:13-43 | printed account lines, ended by LF or CRLF, are read back as their command, email and password |
| ServerRuns.AccountLineAnswers | src/server/CommandHandler.cpp:40-150 | what each printed account line answers and does to the map from email to hash, whatever fails: REGISTER 200 and a new entry, 409 or 500; LOGIN 200, 401 or 404; RESET_PASSWORD 200 and a changed entry, 404 or 500 |
| ServerRuns.MissingWordRefused | src/server/CommandHandler.cpp:44-47 | with the email or the password missing all three answer 400 and change nothing |
| ServerRuns.BareLines | src/server/CommandHandler.cpp:32-34 | GET_FRAME shows the overlay file and GET_LOG the status file, 500 if unreadable; any word that is no command gets 400 |
| ServerRuns.AddLineRoundTrip | src/server/CommandHandler.cpp:217-249 | a well-formed ADD_HISTORY line appends exactly the row it describes, its date's underscores turned into spaces, and answers 200 |
| ServerRuns.ChangeParses | src/server/CommandHandler.cpp:466-534 | the words of a printed change of any of the four kinds are read back as that change |
| ServerRuns.FrameLineRoundTrip | src/server/CommandHandler.cpp:466-534 | a printed CHANGE_FRAME line, handled while the file is readable and writable, makes exactly the change it asks for, touches no other store and answers 200 |
| ServerRuns.FlagLine | src/server/CommandHandler.cpp:488-499 | a printed flag sets `show_bbox` or `show_timestamp` for 0 and 1 and is answered 400 for every other number, 500 if the file cannot be written |
| ServerRuns.ModeLine | src/server/CommandHandler.cpp:500-520 | a mode of the three without a level replaces the mode and removes the level; every other word, "sharp" alone included, is answered 400 |
| ServerRuns.SharpLine | src/server/CommandHandler.cpp:511-517 | "sharp" with a printed level sets both for 0 to 100 and is answered 400 for every other number |
| ServerRuns.NoMenuLine | src/server/CommandHandler.cpp:466-474 | words that begin with no number are answered 400, whatever the file, and change nothing |
| ServerRuns.NoSettingLine | src/server/CommandHandler.cpp:476-523 | after a number an unreadable file gives 500, and another number than 0 to 2 or nothing behind it 400; nothing changes |
| ServerRuns.WordsAccepted | src/server/CommandHandler.cpp:217-241 | over all lists of words: a payload is accepted exactly when it has three words and then a word whose leading number is 0, 1 or 2, or one without a number, or nothing while `eventType` holds 0, 1 or 2; and the row recorded in every case: what follows the number in its word is read as the next word |
| ServerRuns.RecordedAsSaid | src/server/CommandHandler.cpp:220-241 | an accepted payload with a number for a type is recorded as its words say exactly if the number is the whole type word or the words it shifts are equal where they are kept |
| ServerRuns.TypedLineAnswered | src/server/CommandHandler.cpp:217-249 | a line with a printed number of either sign for a type is recorded under it for 0, 1 and 2 and answered 400 for any other |
| ServerRuns.FailedInsert | src/server/CommandHandler.cpp:244-246 | when the insert fails nothing is recorded and the reply is 500 instead of 200 |
| ServerRuns.RowFields | src/server/CommandHandler.cpp:228-242 | the stored row field by field: a speed for type 1 only, and only if it is not negative |
| ServerRuns.LineAccepted | src/server/CommandHandler.cpp:217-249 | the same for a whole line, answered 200 and appended or answered 400 |
| ServerRuns.UntypedLinesRecorded | src/server/CommandHandler.cpp:220-227 | two concrete lines whose type is no number or absent and that are recorded |
| ServerRuns.ShiftedLineRecorded | src/server/CommandHandler.cpp:220-225 | a concrete line whose type "1x" is recorded as type 1, its "x" as the start snapshot and the next word as the end snapshot |
| HistoryAnswers.DataIsRows | src/server/CommandHandler.cpp:271-309 | on a table that keeps the invariant every query's data has one object for each selected row, in order |
| HistoryAnswers.AddThenQuery | src/server/CommandHandler.cpp:217-309 | after a well-formed ADD_HISTORY line the row has a place in the answer of every query that admits it: exactly the pages over that place return its words, as the members its type keeps |
| HistoryAnswers.QueryReplied | src/server/CommandHandler.cpp:152-463 | the reply to every printed query, its numbers of either sign: 400 exactly if the limit is not positive or the offset or type negative, then 404 exactly if no row has the email or the lookup fails, then no rows if the query fails, then the data |
| HistoryAnswers.BareQueryRefused | src/server/CommandHandler.cpp:152-162 | without an email every query is answered 400 |
| HistoryAnswers.ShortQueryParses | src/server/CommandHandler.cpp:253-337 | a query by type with the email alone asks for type 0; a missing date makes a query invalid |
| HistoryAnswers.QueryAnswered | src/server/CommandHandler.cpp:152-463 | a printed query of a registered client is answered with its data, or with no rows if the query fails, and changes nothing |
| HistoryAnswers.NewestFirst | src/db/HistoryRepository.cpp:194-198 | in every query's answer an earlier row is never older than a later one |
| HistoryAnswers.DateWordRecorded | src/server/CommandHandler.cpp:230-231 | a date word `YYYY-MM-DD_HH:MM:SS` becomes the fixed-width text with a space |
| HistoryAnswers.RunDated | src/server/CommandHandler.cpp:217-249 | any commands whose ADD_HISTORY lines carry such a date word keep every stored date in the fixed-width form |
| HistoryAnswers.DayRangeAnswered | src/server/CommandHandler.cpp:324-390 | a printed query for a range of days is answered with a page of exactly the rows of those days, each once, newest first |
| HistoryAnswers.AllAnswered | src/db/HistoryRepository.cpp:39-69 | GET_HISTORY is answered with a page of exactly the rows of the table, each once, newest first |
| HistoryAnswers.TypeAnswered | src/db/HistoryRepository.cpp:71-122 | a printed query for one type is answered with a page of exactly the rows of that type, each once, newest first |
| HistoryAnswers.TypeDaysAnswered | src/db/HistoryRepository.cpp:186-243 | a printed query for one type within a range of days is answered with a page of exactly the rows of that type on those days |
| HistoryAnswers.WalkAtRest | src/db/HistoryRepository.cpp:44-46 | a client that reads a table at rest up to its first short page has everything if and only if its last query did not fail or no row was left; otherwise it has the rows before its last offset |
| HistoryAnswers.FailedQueryHidesRow | src/db/HistoryRepository.cpp:44-46 | a table of one row that a failing query shows as empty |
| HistoryAnswers.PagingSeesEverything | src/server/CommandHandler.cpp:152-463 | a registered client that sends the printed query for offsets 0, L, 2L, ... up to a short page, any commands running before and between, receives every row that matched when it began, as long as only its last query fails and no row was left for it |
| Text.DecimalRoundTrip | test/test_ImageUpload.cpp:36 | a printed number is read back as itself |
| Text.SignedReads | src/server/CommandHandler.cpp:158 | a printed number after a sign is read with it, and one that no `int` holds fails at the nearest |
| Text.NoNumberReads | src/server/CommandHandler.cpp:158 | a word without a number is read as 0 and fails; with no word left the variable keeps its value |
| Text.SizesRead | src/server/TcpServer.cpp:147-148 | a size is read up to 2^64 - 1, beyond that it fails at that value |
| Text.NegativeSizes | src/server/TcpServer.cpp:147-148 | a minus sign before a size negates it modulo 2^64 |
| Text.WordIsRead | src/server/CommandHandler.cpp:41-43 | words end at space, tab, newline, vertical tab, form feed and return, and at nothing else |
| Text.FirstDifference | src/db/HistoryRepository.cpp:132-136 | texts compare by their first different character, and a text sorts before its continuations |
| Text.ScanWord | src/server/CommandHandler.cpp:222 | the number at the start of a word does not depend on what follows the word |

## Left out

- TLS, certificates, sockets, the accept loop, thread creation and logging: of `TcpServer::start` only "many sessions run at once" is modelled.
- SQLite itself: each statement is one atomic step on a table, and an unrelated error is a failure that changes nothing. Exhausted row ids are not modelled.
- A database error in the middle of stepping through a query's rows, which shortens the answer.
- Column affinity: `date` is declared DATETIME, which SQLite treats as numeric, so a date token that reads as a plain number would be stored as a number. Dates are text here.
- `created_at`, the clock, and the inside of SHA-256.
- Floating point: speeds are real numbers, reading and rounding them are opaque functions.
- JSON text, invalid UTF-8 and NUL bytes in tokens: JSON objects are maps, and the text of a command's reply is a parameter assumed to be one line.
- An overlay file whose JSON is not an object, and a write to it that fails after the file has been opened.
- Paths: two spellings of one path are two files, except that "images/." is the directory. Directories are never opened as images.
- A failed write is taken to be followed by failed writes only.
- Session.TcpServer.HandleClientSSL: the session is alone with its stores; what sessions do to each other is the subject of `Linearizability` and `ConcurrentUploads`.
- Several CHANGE_FRAME commands at once, and several uploads of one name at once: the code makes neither atomic.
- Interleavings.AnyInterleaving: leaves out CHANGE_FRAME for that reason.
- A file name above the file system's limit, for which `std::filesystem::exists` (src/server/ImageHandler.cpp:27) throws and nothing catches.
- GET_LOG shows a file another program writes, which is a parameter; `deleteHistory`, `deleteUser` and `getUserById` are reachable from no command.
- ConcurrentUploads.RunShows: uploads are values of a state machine, not objects, so reads of the stream are a number of bytes per step.
- Linearizability.RunLinearized: threads are program counters over shared state, because one method call cannot be interrupted.
- HistoryTable.SortedCorrect: how the database orders rows of equal date is a fixed order on ids given as a parameter.
