# mkw-dwc: a verified model of its core

mkw-dwc is a Go server that stands in for the GameSpy and Nintendo WFC services of a console
game. This project models the parts of it in which a mistake is hard to see by reading, and
proves what they promise.

* **The filter language** of server-list queries (`FilterLexer`, `FilterTree`, `FilterParser`,
  `FilterGrammar`, `FilterSoundness`, `FilterUnambiguous`, `FilterPrinter`, `FilterEval`,
  `FilterFit`, `FilterMeaning`). The lexer and the
  recursive-descent parser with its speculation and backtracking are classes that move `pos`,
  `start` and `cur` as the code does; they are proved against functions on the list of tokens. A
  grammar defined apart from the parser says which trees a token list derives. The accepted
  language is exactly the derivable one less one gap, printing is undone by compiling, the work
  is at most quadratic, and evaluation obeys the laws one expects of it. `FilterMeaning` says, apart
  from the evaluator, what a comparison asks of a room and which rooms a query lists.
* **The ciphers** (`EncTypeX`, `EncTypeXClient`, `Rc4`, `Rc4Meaning`, `ByteTable`). Both keep a table
  of 256 bytes in an array that they swap in place. For EncTypeX a client's decoder is defined, with
  its own keying, and proved to undo it; for RC4 the tables and registers fix the ciphertext.
* **Stream framing** (`TextWire`, `HttpFix`, `HttpRequests`, `HttpHosts`,
  `BrowserDispatch`): messages, HTTP header blocks and
  packets are found in streams that arrive in arbitrary pieces. `HttpMessage` says, apart from the
  code, what a request head is and which body length it declares, after RFC 9112.
* **The registries** (`Backend`): room lists with their session index, lookups, the NATNEG
  entries.
* **The QR and NATNEG protocols** (`Qr`, `QrRuns`, `QrRooms`, `QrWire`, `NatNeg`, `NatNegRuns`,
  `NatNegWire`) as state machines, with properties of all runs. The two `Wire` modules say what the
  packets say, byte by byte, and what a client has to answer.
* **The account store** (`Store`, `StoreRuns`, `StoreMeaning`) with its files, failed writes and
  crashes, and what every call does to the rows.
* **The server-list reply and IPv4 addresses** (`Browser`, `BrowserReply`, `Ip`,
  `PublicAddress`). A client's reader is defined and proved to get back what was sent.

`GoLib` holds the parts of Go's library that matter: decimal numbers of 64 bits, `&`, `^`,
trimming and splitting. Text is a `string` with one char per byte; binary data is a sequence of
bytes 0 to 255. Byte arithmetic wraps at 256, ports at 65536, addresses at 32 bits.

Where the source loops over mutable state there is a method with a loop, proved to compute a
function; what the source promises is then proved of the function. `hide` statements keep
definitions that a proof does not need away from the solver.

What comes from outside is an input of the step that uses it: the time, random bytes, the order
in which Go ranges over a map, the outcome of a write. MD5, base64 and case folding are
arbitrary functions.

Where the code differs from what is said about it, the model follows the code:

* `UpdateServerList` is said to merge fields; it replaces the record.
* `docs/architecture/natneg.md` mentions a delay of about 50 ms; `sendDelay` is 0.
* A room needs no verified challenge: the second heartbeat registers it (`QrRooms.UnprovenRoom`).
  `QrRooms.UnprovenExactly` says which rooms stand unproven.
* A heartbeat that names another game than the session recorded leaves a room behind that no
  session owns (`QrRooms.OrphanedRoom`); `QrRuns.PacketKeepsOwnershipExactly` says when.
* `(a) & b = c` is in the filter grammar but is rejected (`FilterPrinter.GapExample`).
* A value `final`, or bytes without a backslash before the first message, make the result of text
  framing depend on where the stream is cut (`TextWire.CutsAgreeExactly`,
  `TextWire.JunkAgreesExactly`).
* The HTTP wrapper reads lengths line by line: it takes a continuation line that reads like
  Content-Length for one, and a list, or a number on a continuation line, for 0
  (`HttpRequests.LengthIsRightExactly`, with examples).
* `<` between filter values is not transitive when two of three values are numbers
  (`FilterEval.TransitiveExactly`).
* The server browser drops a connection when the bytes at hand exceed 4088, even if they are
  whole packets, so what it handles can depend on the chunks
  (`BrowserDispatch.ChunksHandleTheStream`, `BrowserDispatch.WholePacketsLost`).
* After a failed save of a new user, memory is ahead of the file; a crash can then leave a session
  without an owner and give the profile id to someone else.

## Model

| member | source | states |
|---|---|---|
| FilterLexer.Lexer.SkipSpace | internal/backend/filter.go:108-112 | moves past exactly the white space at the position |
| FilterLexer.Lexer.ReadQuoted | internal/backend/filter.go:114-126 | takes the text up to the next quote of the same kind; an unterminated string is an error |
| FilterLexer.Lexer.ReadNumber | internal/backend/filter.go:128-142 | takes all digits; a number outside 64 bits is an error |
| FilterLexer.Lexer.ReadIdent | internal/backend/filter.go:152-173 | takes a whole word and tells keywords, in any case, from names |
| FilterLexer.Lexer.Next | internal/backend/filter.go:48-106 | the next token and the new position, or an error, as the lexical rules say; counts the call |
| FilterLexer.Lexer.Reset | internal/backend/filter.go:148-150 | goes back to an earlier position |
| FilterParser.CompileParser.Advance | internal/backend/filter.go:394-401 | drops the first token that is left, with one call of the lexer |
| FilterParser.CompileParser.ParsePrimary | internal/backend/filter.go:550-585 | reads a literal, a name or a parenthesised value off the tokens, as the specification does |
| FilterParser.CompileParser.ParseUnary | internal/backend/filter.go:539-548 | reads a negative number or a primary value |
| FilterParser.CompileParser.ParseBitwise | internal/backend/filter.go:521-537 | reads a chain of `&`, nested to the left |
| FilterParser.CompileParser.ParseComparison | internal/backend/filter.go:502-519 | reads two values with a comparison between them |
| FilterParser.CompileParser.Backtrack | internal/backend/filter.go:403-483 | after a speculation `cur`, `pos` and `start` are again exactly what they were before it |
| FilterParser.CompileParser.ParseFactor | internal/backend/filter.go:455-491 | decides by speculation between a comparison and a boolean group; the calls it makes fit its budget |
| FilterParser.CompileParser.ParseAnd | internal/backend/filter.go:437-453 | reads a chain of `and`, nested to the left, within its budget of lexer calls |
| FilterParser.CompileParser.ParseOr | internal/backend/filter.go:419-435 | reads a chain of `or`, nested to the left, within its budget; the mutual recursion terminates on every input |
| FilterParser.CompileFilter | internal/backend/filter.go:181-198 | compiles exactly the filters the specification accepts, with at most (2n + 8)(n + 1) + 1 lexer calls for n characters |
| FilterGrammar.ParserMeetsGrammar | internal/backend/filter.go:419-585 | every derivable token list is parsed to the tree it derives, and is rejected if and only if a comparison's left operand starts with `(` without being one group |
| FilterGrammar.ParsesValue | internal/backend/filter.go:521-585 | a value's tokens followed by anything are read as that value and its `&` tail |
| FilterGrammar.RejectsLongerOperand | internal/backend/filter.go:464-483 | a left operand `(g) & ...` makes the factor fail, whatever follows |
| FilterGrammar.ValueIsNoDisjunction | internal/backend/filter.go:464-491 | a value before `)` is never read as a boolean group |
| FilterGrammar.DisjunctionIsNoValue | internal/backend/filter.go:464-483 | a boolean group is never mistaken for a parenthesised value by the speculation |
| FilterSoundness.AcceptedLanguage | internal/backend/filter.go:181-585 | a filter compiles to a tree if and only if it is blank and the tree is true, or its tokens have a handled derivation that means that tree |
| FilterSoundness.SoundDisjunction | internal/backend/filter.go:419-491 | from every successful parse a derivation is rebuilt that yields exactly the tokens consumed |
| FilterSoundness.SoundBitwise | internal/backend/filter.go:521-585 | a parsed value's yield is exactly the tokens consumed |
| FilterUnambiguous.Unambiguous | internal/backend/filter.go:419-585 | the grammar is unambiguous, with or without the gap: two derivations of the same tokens are the same derivation |
| FilterUnambiguous.ComparisonIsNoGroup | internal/backend/filter.go:455-491 | no token list begins both with a comparison and with a boolean group |
| FilterPrinter.RoundTrip | internal/backend/filter.go:48-585 | the printed form of a writable tree compiles to exactly that tree, or, if and only if it falls into the gap, not at all |
| FilterPrinter.OrIsMinimal | internal/backend/filter.go:419-491 | the printer's derivation has the fewest tokens of all derivations of the same tree |
| FilterPrinter.DerivationIsFaithful | internal/backend/filter.go:419-491 | the derivation chosen for a tree means that tree and is handled if and only if no comparison falls into the gap |
| FilterPrinter.LexesSpell | internal/backend/filter.go:48-173 | tokens spelled with a space between them are lexed back to the same tokens |
| FilterMeaning.WordIsRead | internal/backend/filter.go:152-173 | a run of letters, digits and underscores is one token: `and`, `or` and `like` with each letter small or large are the operators, every other word is a name as it stands |
| FilterPrinter.GapExample | internal/backend/filter.go:464-483 | the filter `( a ) & b = c` is rejected |
| FilterEval.AndChain | internal/backend/filter.go:283-292 | an and-chain, however nested, has the outcome of its first conjunct that is not true |
| FilterEval.OrChain | internal/backend/filter.go:268-277 | an or-chain, however nested, has the outcome of its first disjunct that is not false |
| FilterEval.Trichotomy | internal/backend/filter.go:587-629 | of less, equal and greater exactly one holds between any two values; the other three operators are their complements |
| FilterEval.EqualityIsEquivalence | internal/backend/filter.go:231-629 | equality is an equivalence relation, also between numbers and strings |
| FilterEval.EqualMeansSameEssence | internal/backend/filter.go:231-629 | two values are equal if and only if they have the same number, or neither has one and they have the same text |
| FilterEval.OrderIsTransitive | internal/backend/filter.go:587-629 | `<` is transitive on any three values unless exactly two of them have a number |
| FilterEval.OrderCycle | internal/backend/filter.go:587-629 | with two numbers it is not: three values each less than the next |
| FilterEval.TransitiveExactly | internal/backend/filter.go:587-629 | for every pattern of which values have a number: `<` is transitive on all values of the pattern if and only if it does not have exactly two numbers |
| FilterEval.ComparisonsNeverFail | internal/backend/filter.go:299-629 | a comparison of two values never ends in an error |
| FilterMeaning.OperandMeaning | internal/backend/filter.go:320-369 | what an operand is: a literal or field has the number it reads as, if any, and is otherwise its text; a missing field, or `&` without two numbers, fails |
| FilterMeaning.LexLessMeaning | internal/backend/filter.go:587-629 | text is ordered by bytes: it ends first, or is smaller where the two first differ |
| FilterMeaning.ComparisonMeaning | internal/backend/filter.go:299-309 | a comparison fails if and only if an operand does, and is else what the operator asks of left and right: as numbers if both have one, else as texts; LIKE asks for equal foldings |
| FilterMeaning.FieldAgainstNumber | internal/backend/filter.go:299-309 | a field that reads as a number against a number, for all six operators and both ways round |
| FilterMeaning.FieldAgainstText | internal/backend/filter.go:299-309 | a field without a number against any text, by byte order, both ways round, and LIKE |
| FilterMeaning.MissingField | internal/backend/filter.go:336-340 | a comparison with a field that the room does not have fails |
| FilterEval.ValuesFit | internal/backend/filter.go:320-369 | every number that evaluating an expression with 64-bit literals makes fits 64 bits |
| FilterFit.CompiledFits | internal/backend/filter.go:128-198 | all literals of a filter that compiles are 64-bit integers |
| FilterFit.EvaluationFits | internal/backend/filter.go:299-369 | so every number that a compiled filter compares fits 64 bits, and `&` on unbounded integers is `&` on int64 |
| GoLib.BitAndBits | internal/backend/filter.go:351-369 | `&` has exactly the bits that both operands have |
| GoLib.XorCancel | internal/gamespy/crypto.go:229-281 | combining a byte twice with the same pad by exclusive or gives it back |
| GoLib.XorMeaning | internal/gamespy/crypto.go:229-281 | exclusive or sets exactly the bits in which two bytes differ |
| GoLib.ParseOfFormat | internal/backend/filter.go:231-254 | a formatted 64-bit integer parses back to itself |
| EncTypeX.EncTypeXFunc5 | internal/gamespy/crypto.go:191-221 | draws an index in 0..cnt within 12 rounds and keeps the position inside the id |
| EncTypeX.EncTypeXFunc4 | internal/gamespy/crypto.go:165-189 | sets up the 261-byte state as specified; all indexing is in bounds |
| EncTypeX.EncTypeXFuncx | internal/gamespy/crypto.go:151-163 | mixes the key and the received bytes into the validate string and sets up the state with it |
| EncTypeX.EncTypeXInit | internal/gamespy/crypto.go:128-149 | reads the lengths in the header, keys the state and says where the body starts, or fails on a header that is too short |
| EncTypeX.EncTypeXFunc7e | internal/gamespy/crypto.go:229-281 | one byte: the state stirred, the pad applied, the two registers remembered |
| EncTypeX.EncTypeXFunc6e | internal/gamespy/crypto.go:223-227 | encrypts the data array in place, byte after byte |
| EncTypeX.EncTypeXEncrypt | internal/gamespy/crypto.go:88-126 | a 20-byte header and the encrypted payload; nothing for an empty key, validate string or payload |
| EncTypeXClient.EncTypeXInvertible | internal/gamespy/crypto.go:88-281 | for every key, validate string of 8 bytes or more, header randomness and payload, a client's decoder with its own mixing, keying and byte step recovers the payload, and the output is 20 bytes longer |
| EncTypeXClient.Lockstep | internal/gamespy/crypto.go:223-281 | the decoder, which keeps a table of 256 and five registers and calls nothing of the encoder, reads the plaintext and ends in the state the encoder ends in |
| EncTypeXClient.KeyedIsKey | internal/gamespy/crypto.go:165-221 | the client's keying, with its own masks, draws and exchanges, gives the table and the registers of the key setup |
| EncTypeXClient.Reads | internal/gamespy/crypto.go:128-163 | the client finds the same lengths, the same mixed key and the same body in the header |
| EncTypeX.RegistersOfRun | internal/gamespy/crypto.go:229-281 | over any data register 256 advances by one a byte, 257 by the entry that 256 pointed at, and 260 and 259 hold the last cipher and plain byte |
| EncTypeX.InitOfHeader | internal/gamespy/crypto.go:88-149 | the state keyed depends on the header alone, not on the body behind it |
| EncTypeX.StirKeepsTable | internal/gamespy/crypto.go:229-269 | rotating four table entries keeps the table a permutation, also when positions coincide |
| EncTypeX.TableIsPermutation | internal/gamespy/crypto.go:165-281 | after key setup and any amount of data the table is a permutation of 0..255 |
| ByteTable.DistinctIsPermutation | internal/gamespy/crypto.go:13-43 | 256 distinct bytes are all the bytes there are |
| Rc4.RC4Encrypt | internal/gamespy/crypto.go:13-43 | computes the specified ciphertext of the same length; nil for an empty key |
| Rc4.ScheduleKey | internal/gamespy/crypto.go:18-29 | the table after 256 swaps of the key schedule |
| Rc4.EncryptByte | internal/gamespy/crypto.go:31-41 | one byte: `i` moves by the plaintext byte, the table is swapped and read |
| Rc4.TableIsPermutation | internal/gamespy/crypto.go:13-43 | after key schedule and any data the table is a permutation of 0..255 |
| Rc4.EncryptsPrefixes | internal/gamespy/crypto.go:13-43 | the encryption of a prefix is the prefix of the encryption |
| Rc4.NotInjective | internal/gamespy/crypto.go:31-41 | a table and two plaintext bytes that are encrypted to the same byte, so there is no general inverse |
| Rc4Meaning.EncryptsExactly | internal/gamespy/crypto.go:13-43 | a byte string is the ciphertext if and only if tables link it to the plaintext: each step of the key exchanges two entries, `i` is the number of bytes and their sum, `j` the sum of the entries met, each step exchanges these two entries, and the entry at their sum is what plain and cipher byte differ by |
| Rc4Meaning.FirstRegister | internal/gamespy/crypto.go:31-41 | after n bytes `i` is n plus the sum of the plaintext, modulo 256 |
| TextWire.StripBackslash | internal/gamespy/textwire.go:109-121 | removes exactly the backslashes at both ends |
| TextWire.CreateGameSpyMessageOrdered | internal/gamespy/textwire.go:97-107 | the wire form of the stripped pairs, ended by the final marker |
| TextWire.StripsNothing | internal/gamespy/textwire.go:97-121 | clean pairs are written as they are |
| TextWire.ParseGameSpyMessage | internal/gamespy/textwire.go:8-59 | returns the complete messages and the bytes behind them, as specified, for any bytes |
| TextWire.FrameBuffer.Consume | internal/gamespy/texttcp/server.go:71-86 | messages returned and bytes kept are those specified; a junk prefix is dropped up to the next marker |
| TextWire.Framing | internal/gamespy/texttcp/server.go:71-86 | for every stream of clean messages, from any position and for any chunks: exactly the messages completed, in order, and exactly the unfinished one is kept |
| TextWire.ChunkIndependence | internal/gamespy/texttcp/server.go:71-86 | every way of cutting a whole stream yields all its messages and leaves nothing |
| TextWire.CreatedMessagesArrive | internal/gamespy/textwire.go:97-121 | messages created of clean pairs and sent one after the other arrive complete and in order, whatever the chunks |
| TextWire.LeftIsProper | internal/gamespy/texttcp/server.go:71-86 | what is kept is always a proper prefix of the next message |
| TextWire.CutsAgreeExactly | internal/gamespy/textwire.go:8-59 | a stream of messages without backslashes or a key `final` is read the same however it is cut in two if and only if no value is `final`, and then however it is cut at all |
| TextWire.JunkAgreesExactly | internal/gamespy/texttcp/server.go:73-80 | a stream of clean messages behind bytes without a backslash is read the same however it is cut in two if and only if there are no such bytes or no message, and then however it is cut at all |
| TextWire.AddFieldsIsMessageOf | internal/gamespy/textwire.go:32-56 | the message read has the first pair as command and the last value of a repeated key |
| TextWire.MessageSays | internal/gamespy/textwire.go:32-56 | of a message's pairs: `__cmd__` is the first key and `__cmd_val__` its value unless a pair has that key, every key present has the value of its last pair, and there are no others |
| TextWire.FeedSays | internal/gamespy/texttcp/server.go:71-86 | that is what the frame buffer returns for every stream of clean messages, however it is cut |
| TextWire.StrippedMeaning | internal/gamespy/textwire.go:109-121 | stripping takes backslashes off both ends and nothing else, until there are none |
| TextWire.WireSays | internal/gamespy/textwire.go:97-107 | the wire form is every key and value behind a backslash, and `\final\` |
| HttpFix.DedupeHost | internal/httpfix/host.go:197-216 | the header block without the Host lines behind the first |
| HttpFix.ContentLength | internal/httpfix/host.go:178-195 | the value of the first Content-Length line, 0 if there is none or it is no number |
| HttpFix.KeepsFirstHost | internal/httpfix/host.go:197-223 | of the Host lines exactly the first stays; all other lines stay, in order |
| HttpFix.RewritingKeepsLength | internal/httpfix/host.go:178-223 | removing Host lines never changes the computed body length |
| HttpFix.Conn.LoadHeaders | internal/httpfix/host.go:137-176 | buffers the next block, rewritten if complete, and sets the body length; what is still to be delivered stays the same |
| HttpFix.Conn.Read | internal/httpfix/host.go:64-110 | for any buffer size and network timing, returns the next bytes of what the specification delivers, and nothing only at its end |
| HttpRequests.ReadAll | internal/httpfix/host.go:64-110 | repeated reads deliver a prefix of the specified stream, and all of it when they end; if the stream carries requests whose lengths the wrapper sees, that is those requests with only the first Host line of each |
| HttpRequests.RewritesRequests | internal/httpfix/host.go:64-216 | every sequence of requests whose bodies have the length of section 6.3 of RFC 9112, and whose lengths the wrapper sees, comes through as each header with only its first Host line and its untouched body |
| HttpRequests.LengthIsRightExactly | internal/httpfix/host.go:178-195 | for every valid head the computed length is the body length of section 6.3 of RFC 9112 if and only if no line looks like Content-Length, or such a field comes first and its line is a single number below 2^63 or the length is 0, or a continuation line comes first whose value happens to be the length |
| HttpRequests.OrdinaryIsSeen | internal/httpfix/host.go:178-195 | so it is for every head without folded lines and with single numbers below 2^63 |
| HttpRequests.OrdinaryRequestsAreSeen | internal/httpfix/host.go:64-216 | and all such requests come through with only their repeated Host lines gone |
| HttpRequests.FoldedExample | internal/httpfix/host.go:178-195 | a continuation line that reads like Content-Length is taken for one: the computed length is its number, the body length is 0 |
| HttpRequests.FoldedSwallows | internal/httpfix/host.go:64-110 | all requests that fit into that number then pass as a body, unchanged |
| HttpRequests.FoldedBreaks | internal/httpfix/host.go:64-216 | two requests of which the second keeps a Host line that should have gone |
| HttpRequests.ListExample | internal/httpfix/host.go:178-195 | the list `5, 5`, which stands for 5, is read as 0 |
| HttpRequests.FoldedValueExample | internal/httpfix/host.go:178-195 | and so is a 5 on a continuation line |
| HttpRequests.DeliversRequests | internal/httpfix/host.go:64-216 | so it is for what the connection delivers, unless the stream starts like a TLS handshake |
| HttpHosts.OneHostStays | internal/httpfix/host.go:197-223 | of a valid head stays everything but the first lines of the fields named `host`, in any case, behind the first such field |
| HttpHosts.DeliversOneHost | internal/httpfix/host.go:64-216 | a connection with requests whose lengths the wrapper sees delivers each with one Host field |
| HttpHosts.OverlongPasses | internal/httpfix/host.go:137-176 | lines that reach beyond 65536 bytes without a blank one pass unchanged, and what follows is read as a new header |
| HttpHosts.HandshakePasses | internal/httpfix/host.go:119-135 | a stream that begins with the bytes 22, 3 and one up to 3 passes unchanged |
| BrowserDispatch.Connection.Dispatch | internal/gamespy/browser/server.go:131-168 | cuts whole packets off the buffer and says whether the connection stays open |
| BrowserDispatch.ChunksHandleTheStream | internal/gamespy/browser/server.go:131-168 | for any chunks the packets handled are a prefix of the stream's, and all of them if and only if no chunk overfills the buffer while a packet is in it |
| BrowserDispatch.OpenIsExact | internal/gamespy/browser/server.go:131-168 | while a connection is open it has handled, and kept, exactly what the stream says |
| BrowserDispatch.PacketsAreCut | internal/gamespy/browser/server.go:131-168 | packets of 3 to 4088 bytes that begin with their length, high byte first, are cut where they were joined, and the beginning of another is kept |
| BrowserDispatch.BadLengthCloses | internal/gamespy/browser/server.go:131-168 | a length below 3 or above 4088 closes the connection, and nothing behind it is handled |
| BrowserDispatch.WholePacketsLost | internal/gamespy/browser/server.go:107-168 | 1363 whole packets in one chunk of 4089 bytes: none is handled and the connection closes; in two chunks all are handled |
| Backend.Registry.BuildRecord | internal/backend/backend.go:84-108 | sorts the fields of a heartbeat into a record, in any order of the map |
| Backend.Registry.UpdateServerList | internal/backend/backend.go:84-125 | replaces the session's record where it stands or appends it; list and index of every game agree exactly |
| Backend.Registry.DeleteServer | internal/backend/backend.go:128-160 | removes the session's record, keeps the others' order, drops an empty game from both; list and index agree |
| Backend.Registry.Reindex | internal/backend/backend.go:149-159 | after a deletion the index points each session to its place again, and nothing else |
| Backend.RunMeaning | internal/backend/backend.go:84-160 | after every history of updates and deletes a game's list is exactly its living sessions with their latest records, in order of the update that began each life |
| Backend.FieldsComeBack | internal/backend/backend.go:29-108 | a record gives back exactly the heartbeat's fields, but for reserved ones that are empty |
| Backend.Registry.FindServers | internal/backend/backend.go:163-194 | the first `maxCount` records, all if it is not positive, whose filter is true without error, in list order; an error only for a filter that does not compile |
| FilterMeaning.ListedExactly | internal/backend/backend.go:163-194 | for a filter that is one comparison and no limit, a record is listed if and only if it is one of the game and its fields satisfy the comparison |
| FilterMeaning.LimitTakesFirst | internal/backend/backend.go:172-193 | a positive limit gives that many first results of the query without a limit |
| FilterMeaning.BlankListsAll | internal/backend/backend.go:163-194 | a blank filter lists every room of the game |
| FilterMeaning.FewPlayers | internal/backend/backend.go:163-194 | for the text of the filter `numplayers < 3`: a room is listed if and only if its number of players is below 3, or that field is no number and comes before `3` as text |
| Backend.Registry.CollectMatches | internal/backend/backend.go:172-193 | the loop of it, which stops as soon as there are enough |
| Backend.Registry.BuildServerResult | internal/backend/backend.go:333-347 | every requested field with the room's value, or empty |
| Backend.Registry.FindServerByAddress | internal/backend/backend.go:197-229 | the first room at the address and port, in the game or in all games |
| Backend.Registry.FindServerByLocalAddress | internal/backend/backend.go:232-280 | among rooms at the public address the first with the local port, else the last with the local address |
| Backend.BestLocalChooses | internal/backend/backend.go:239-267 | in one game that is the first room with the local port, else the last with the local address, else, for local port 0, the first at the public address, else none |
| Backend.ByAddressMeaning | internal/backend/backend.go:197-229 | that lookup finds nothing if and only if no room of the games is at the address |
| Backend.Registry.AddNatnegServer | internal/backend/backend.go:283-302 | appends the entry unless its endpoint is known or eight are there |
| Backend.Registry.DeleteNatnegServer | internal/backend/backend.go:324-331 | removes exactly the entries of the cookie |
| Qr.ParseNullDelimitedKV | internal/gamespy/qr/server.go:472-487 | the pairs between NUL bytes, a later key winning |
| QrWire.FieldsRead | internal/gamespy/qr/server.go:472-487 | fields written with a NUL between any two come back, the last value of a key counting, whatever number of zero bytes ends the packet, if the last value is not empty |
| Qr.Server.HandlePacket | internal/gamespy/qr/server.go:184-235 | the whole new state for every packet |
| Qr.Server.HandleChallengeResponse | internal/gamespy/qr/server.go:237-286 | the whole new state after a right, a wrong and a short answer |
| Qr.Server.HandleHeartbeat | internal/gamespy/qr/server.go:288-391 | the whole new state: fields amended, then a challenge issued or the room registered |
| Qr.Server.AmendFields | internal/gamespy/qr/server.go:321-377 | the heartbeat's fields with addresses, port and name filled in |
| QrWire.FieldsAmended | internal/gamespy/qr/server.go:321-377 | what becomes of every field: `publicip` 0, `localip0` 10.0.1.30, a `publicport` that differs from `localport`, a missing `ingamesn`; all others stay |
| QrWire.SessionNotes | internal/gamespy/qr/server.go:303-360 | what a session takes from a heartbeat: key, console, player id, name; nothing else |
| QrWire.ConsoleMeaning | internal/gamespy/qr/server.go:489-503 | the console is 1 if and only if the name of the game ends in one of four ways |
| Qr.Server.UpdateServerList | internal/gamespy/qr/server.go:393-448 | registers the room or, on a closing heartbeat, removes room and session |
| Qr.Server.KeepaliveCheck | internal/gamespy/qr/server.go:450-470 | removes exactly the sessions that are stale and the rooms they recorded, in any order of the map |
| QrRuns.RoomOwnership | internal/gamespy/qr/server.go:184-470 | in every run with one non-empty game per session life, a room belongs to a live session that records its game and whose challenge was issued, by a heartbeat, in that life; after a tick that session sent a packet less than 61 s before |
| QrRuns.PacketKeepsOwnershipExactly | internal/gamespy/qr/server.go:237-448 | from any owned state a packet keeps every room owned if and only if it agrees with the game the session recorded |
| QrRuns.TickKeepsOwnership | internal/gamespy/qr/server.go:450-470 | a tick never leaves a room without its session |
| QrRuns.RunsChallenge | internal/gamespy/qr/server.go:288-391 | in every run, without assumptions, a session that awaits a proof, holds a heartbeat or records a game was sent its challenge |
| QrRuns.FindChallenge | internal/gamespy/qr/server.go:365-391 | in every run, without assumptions, the challenge that a session has at any time was sent by a heartbeat of that session in the life it is in then |
| QrRuns.RunsAreFaithful | internal/gamespy/qr/server.go:288-448 | what sessions record is what was named in their life, so all packets of such a run agree |
| QrRuns.KeepaliveIsPacketTime | internal/gamespy/qr/server.go:184-230 | a session's keepalive is the time of a packet it sent |
| QrRuns.HeartbeatEffect | internal/gamespy/qr/server.go:288-391 | a first heartbeat is answered with a challenge and leaves the rooms alone; a later one makes the room |
| QrWire.AdmittedExactly | internal/gamespy/qr/server.go:237-391 | a host that names a game with a key is sent a challenge; if it answers with that text encrypted with the key, by the table laws of the cipher, it is told so and its room stands with the heartbeat's fields, and otherwise it gets no word and no room and needs a new challenge |
| QrWire.ProofWithoutKey | internal/gamespy/crypto.go:46-53 | a session without a key is asked for the base64 form of one zero byte |
| QrWire.ChallengeSays | internal/gamespy/qr/server.go:370-388 | a challenge names the session, six random characters, and in hexadecimal the address and port it was sent to |
| QrWire.LaterHeartbeat | internal/gamespy/qr/server.go:288-448 | a later heartbeat registers the room with the amended fields and records the game |
| QrWire.ClosingHeartbeat | internal/gamespy/qr/server.go:393-417 | a closing heartbeat ends the session and the room of the game it names, or else of the game recorded |
| QrWire.TickKeepsExactly | internal/gamespy/qr/server.go:450-470 | a tick keeps exactly the sessions heard of less than 61000000000 ns ago, and the rooms but those that a session that goes has recorded |
| QrWire.ProbeIsAnswered | internal/gamespy/qr/server.go:232-235 | an availability probe is answered with seven bytes that say "available" and changes no session or room |
| QrRooms.RoomStepExactly | internal/gamespy/qr/server.go:237-470 | after any packet or tick a room is there if and only if a right proof or a heartbeat of a challenged session registered it, or it was there and nothing removed it; each by the guard of its branch |
| QrRooms.RoomsFromHistory | internal/gamespy/qr/server.go:184-470 | in every run a room stands if and only if one such registration began its present life |
| QrRooms.UnprovenExactly | internal/gamespy/qr/server.go:365-368 | in every run a room stands without a right answer in its life if and only if a heartbeat began that life and no right answer came since |
| QrRooms.RoomsWereChallenged | internal/gamespy/qr/server.go:288-391 | in every run, without assumptions, the life of a room began with a packet of a session that had been sent its challenge in the life it was in then |
| QrRooms.UnprovenRoom | internal/gamespy/qr/server.go:365-368 | the same heartbeat sent twice registers a room although no proof was ever sent |
| QrRooms.OrphanedRoom | internal/gamespy/qr/server.go:393-448 | heartbeats of session 1 for games a, a and b leave the room of a with a session that records b |
| QrRooms.HeartbeatReads | internal/gamespy/qr/server.go:472-487 | the bytes of a heartbeat that names a game read back as that field alone |
| NatNeg.Server.HandlePacket | internal/gamespy/natneg/server.go:200-226 | the whole new state for every packet |
| NatNeg.Server.HandleInit | internal/gamespy/natneg/server.go:228-338 | session, slots and every message enqueued, for any order of the map |
| NatNegWire.ConnectSays | internal/gamespy/natneg/server.go:458-485 | the port in a CONNECT packet is the public port of the entry or room found if that is a positive number, else the local port of the INIT unless that is 0, else the port the INIT came from; the other bytes are session and address |
| NatNegWire.RoomPortIsTold | internal/gamespy/natneg/server.go:472-485 | so a room registered with the text of a port is told with that port |
| NatNegWire.InitReads | internal/gamespy/natneg/server.go:228-260 | local address, local port and game are read from bytes 15 to 20 and the text behind them |
| NatNegWire.InitAckSays | internal/gamespy/natneg/server.go:228-338 | the acknowledgement has 21 bytes: the first 14 of the INIT but for type 1, and a fixed tail |
| NatNegWire.PacketTypes | internal/gamespy/natneg/server.go:200-226 | which packets are INITs and which acknowledge: by magic, version, type and length |
| NatNeg.Server.HandleConnectAck | internal/gamespy/natneg/server.go:340-363 | marks the client connected and the session active; nothing for an unknown one |
| NatNeg.ReplyMeaning | internal/gamespy/natneg/server.go:365-428 | which requests are answered; an answer goes to the sender, is of the type that belongs to the request, for the same session and equal to it but for the named bytes; an address check is told the sender's address and port |
| NatNeg.Server.SessionCleanup | internal/gamespy/natneg/server.go:171-198 | idle sessions go, and exactly their registry entries |
| NatNeg.Server.FindServerAddr | internal/gamespy/natneg/server.go:430-456 | an entry of the session at the address, else a room by local, else by public address |
| NatNeg.LookupMeaning | internal/gamespy/natneg/server.go:430-456 | what is found stands at the client's public address; nothing is found only if no entry and no room is there |
| NatNegWire.LookupOrder | internal/gamespy/natneg/server.go:430-456 | the first entry at the address comes before every room, and a room found by local address before one found by public address |
| NatNegRuns.PairsTheWaiting | internal/gamespy/natneg/server.go:228-338 | in any run an INIT enqueues, for each of its partners, two packets: each side is told the other's latest INIT address |
| NatNegRuns.InitSendsExactly | internal/gamespy/natneg/server.go:228-338 | besides those it enqueues one acknowledgement and nothing else; with nobody waiting the acknowledgement alone |
| NatNegRuns.PartnersAreWaiting | internal/gamespy/natneg/server.go:262-289 | the partners of an INIT are exactly the other clients that by history sent an INIT in the session's life and did not acknowledge since |
| NatNegRuns.ClientsFromHistory | internal/gamespy/natneg/server.go:228-363 | in any run a client is in a session if and only if it sent an INIT in its present life; its slot says what the latest one said, and whether it acknowledged since |
| NatNegRuns.TwoClientsMeet | internal/gamespy/natneg/server.go:228-338 | two clients that both send an INIT in a session's life, the first not acknowledging between, are each told about the other, and that stays in the outbox |
| NatNegRuns.ConnectPacketNames | internal/gamespy/natneg/server.go:458-470 | the packet names session, address and port, byte for byte |
| NatNegRuns.EntriesStayOk | internal/backend/backend.go:283-302 | over every run a cookie has at most eight entries, for distinct endpoints |
| NatNegRuns.CleanUpLeavesTheActive | internal/gamespy/natneg/server.go:171-198 | after a clean-up a session is left if and only if it was there and was used in the last 30 minutes; the entries of the others are gone and no others |
| Store.PersistFile | internal/database/json/store.go:543-561 | the outcome of a save, and the states the file can be found in if the process dies in between |
| Store.Store.Initialize | internal/database/json/store.go:530-541 | saves the four files in order, up to the first failure |
| Store.Store.IsBanned | internal/database/json/store.go:129-139 | whether the game, without its region letter, is banned at the address |
| Store.Store.StoreNasLogin | internal/database/json/store.go:142-181 | refuses another user's token, else replaces the user's row or appends it, and saves |
| Store.Store.GetNasLogin | internal/database/json/store.go:184-198 | the data of the first row with the token |
| Store.Store.LoginProfileFromAuth | internal/database/json/store.go:290-358 | every error case, the known user's id, or a new user |
| Store.Store.CreateUser | internal/database/json/store.go:439-481 | appends the user, with the next id as an int64 that wraps, and saves |
| StoreRuns.NewUserFitsExactly | internal/database/json/store.go:439-481 | ids stay positive and unique with a new user if and only if the largest id is not the largest int64 |
| Store.Store.CreateSession | internal/database/json/store.go:361-500 | drops the profile's sessions and opens one under the first unused key drawn; memory is changed even if that fails |
| Store.Store.DeleteSession | internal/database/json/store.go:401-419 | drops exactly the session with the key |
| Store.Store.UpdateProfileNames | internal/database/json/store.go:226-260 | changes the names up to an unsupported field, saves if there was none |
| StoreMeaning.SessionEnds | internal/database/json/store.go:401-419 | ending a session takes exactly the rows with its key and keeps the order of the rest and all other lists; the caller is told so if and only if a restart no longer finds the key |
| StoreMeaning.SessionOpens | internal/database/json/store.go:361-500 | a login keeps the sessions of other profiles in order and adds one under the first key drawn that none of them has; it fails without a profile, a free key, a ticket or a save, and what it has changed by then is said |
| StoreMeaning.ProfileUpdates | internal/database/json/store.go:226-260 | the names get their last values up to the first field that is no name, nothing else changes, and success means that every field was a name and the file was written |
| StoreMeaning.LoginStored | internal/database/json/store.go:142-181 | another user's token is refused; else the user's first row is replaced or one appended, with the two names encoded and the other data as it came |
| StoreMeaning.LoginWithoutName | internal/database/json/store.go:290-325 | data without a numeric user id and a game code is refused and changes nothing |
| StoreMeaning.KnownUserLogsIn | internal/database/json/store.go:339-357 | a known user is told its own id, or that it is disabled, and nothing changes |
| StoreMeaning.NewUserLogsIn | internal/database/json/store.go:290-481 | an unknown user is appended with every field as said, under the id after the largest, and told it if the save got through |
| StoreMeaning.Base32Reads | internal/database/encode.go:26-43 | the text of a positive number reads back in base 32 and has no leading zero; others have none |
| StoreMeaning.FlushWrites | internal/database/json/store.go:530-541 | writing one file out makes it say what memory says and touches no other |
| StoreRuns.RunStaysGood | internal/database/json/store.go:142-561 | over every run, with crashes at any moment and any failed write but that of a new user, while ids are left: ids positive and unique, users unique, tokens and users of logins distinct, one session per profile under distinct keys and with an owner, in memory and after a restart |
| StoreRuns.StartIsGood | internal/database/json/store.go:78-87 | a store opened on an empty directory has all of this |
| StoreRuns.ListsSurviveAnything | internal/database/json/store.go:142-561 | all of this but the owners is kept whatever fails and wherever it crashes, while ids are left |
| StoreRuns.EmptyStoreSurvives | internal/database/json/store.go:439-447 | from an empty directory ids are left for 2^63 - 1 calls, so all of that is kept over every run of so many |
| StoreRuns.ProfileForLife | internal/database/json/store.go:290-481 | over a whole run with crashes two successful logins get the same profile id if and only if user id and game code are the same |
| StoreRuns.IdentitiesStay | internal/database/json/store.go:449-481 | users are never dropped, renumbered or reordered |
| StoreRuns.CrashIsAllOrNothing | internal/database/json/store.go:543-578 | after a crash, also one that follows failed saves, every list is as its file was, but the one being saved as the call made it if it got there |
| StoreRuns.AcknowledgedIsDurable | internal/database/json/store.go:543-578 | success is only reported when a restart would find the list as the call left it |
| StoreRuns.OwnersSurviveExactly | internal/database/json/store.go:361-528 | every session opened has an owner after a crash if and only if every profile in memory is in its file |
| StoreRuns.FailedSaveLosesOwners | internal/database/json/store.go:449-481 | when a new user logs in, a later crash can leave a session without owner if and only if the save of that login failed |
| StoreRuns.UnsavedIdIsReused | internal/database/json/store.go:439-481 | after such a failure the next try succeeds from memory, and after a restart its id goes to the next new user |
| StoreRuns.NewSessionMeaning | internal/database/json/store.go:361-398 | a login leaves the profile with exactly the new session, under a key no other session has |
| StoreRuns.TokenGivesData | internal/database/json/store.go:142-198 | a stored token gives the stored data, the user's earlier token nothing, every other token what it gave |
| Browser.GenerateServerEntry | internal/gamespy/browser/server.go:369-428 | the bytes of one room: flags, what they announce, the requested values |
| Browser.GenerateAddresses | internal/gamespy/browser/server.go:375-417 | the flags and the address part they announce |
| Browser.ConnSession.GenerateServerListHeader | internal/gamespy/browser/server.go:339-367 | the client's address, the number of fields, their names |
| Browser.ConnSession.FindServer | internal/gamespy/browser/server.go:282-337 | exactly the encrypted blocks of the reply to the query are written, also for a query without results, and the console of the last room listed is kept |
| Browser.ConsoleIsLast | internal/gamespy/browser/server.go:282-337 | the console kept is that of the last room sent, or the one there was |
| Browser.ConnSession.SendEncrypted | internal/gamespy/browser/server.go:430-439 | one block encrypted; nothing without a key |
| BrowserReply.ReplyComesBack | internal/gamespy/browser/server.go:282-428 | the plaintext has one reading: the client's address, the field names and, in order, every room's addresses, ports and values |
| BrowserReply.QueryIsAnswered | internal/gamespy/browser/server.go:282-439 | a client that decrypts and joins the blocks reads exactly the first matching rooms of the registry, in list order, with the values it asked for |
| BrowserReply.BlocksMakeTheReply | internal/gamespy/browser/server.go:313-336 | joined, the blocks are the whole reply, wherever the cuts fall; none is empty and all but the last have 1022 bytes or more |
| BrowserReply.BlocksAreShort | internal/gamespy/browser/server.go:313-336 | no block is longer than its last entry, or the end of the list, makes it beyond 1021 bytes |
| BrowserReply.BlocksOpen | internal/gamespy/browser/server.go:430-439 | decrypting every block by itself gives the plaintext back |
| BrowserReply.EntryComesBack | internal/gamespy/browser/server.go:369-428 | one entry followed by anything is read back as that room |
| BrowserReply.EntrySays | internal/gamespy/browser/server.go:369-428 | the room of a heartbeat is shown with its public port unless that is empty or 0, and else its local port, with private address and port if they were sent, and with the values of the fields asked for |
| BrowserReply.AddressesComeBack | internal/gamespy/browser/server.go:375-417 | for every combination of flags the address part is read back |
| BrowserReply.CStringComesBack | internal/gamespy/binwire.go:30-42 | a NUL-free string is read back from its bytes and the NUL |
| BrowserReply.NoneDropped | internal/gamespy/browser/server.go:534-536 | a room that a query found is never dropped for lack of fields |
| Ip.ParseIPv4Bytes | internal/gamespy/ip.go:48-62 | the four bytes of a dotted address, zeros for anything else |
| Ip.AddressSurvives | internal/gamespy/ip.go:12-24 | what is stored for an address is written back as the original four bytes, for both consoles |
| Ip.StoredNumber | internal/gamespy/ip.go:12-24 | the number stored: the first byte counts most for console 1, the last for the others, and from 2^31 on it is negative |
| Ip.MatchesExactly | internal/gamespy/ip.go:28-83 | the stored number matches a dotted address if and only if that is the original or the original with its bytes reversed |
| Ip.DottedRoundTrip | internal/gamespy/ip.go:48-83 | the dotted form of an address parses back to it |
| Ip.WordRoundTrip | internal/gamespy/binwire.go:46-54 | four bytes read as a word and written again are the same, in both byte orders |
| Ip.WordReads | internal/gamespy/binwire.go:46-54 | a 32-bit word written and read again is the same, in both byte orders |
| PublicAddress.ListedAddress | internal/gamespy/qr/server.go:321-323 | a record made from a heartbeat with `publicip=0` is listed with the four bytes the packet came from and matches its dotted form |
| PublicAddress.HeartbeatIsListed | internal/gamespy/qr/server.go:288-448 | after such a heartbeat of a challenged session the game's list has an entry of that session with that address |

## Left out

* Sockets, listeners, goroutines and channels. Each packet, tick or call is one atomic step; the code
  releases its locks inside a handler, and what other handlers could do there is not modelled. Sends
  go to an outbox that never overflows.
* Pointers into shared records: `FindServerByAddress` returns a pointer into the list that a later
  deletion shifts; here it returns a copy. Sessions and their slots are values in a map.
* The clock, random draws and the order of map iteration are inputs. That `games` is an order of the
  registry's keys is not required of a lookup.
* MD5, base64, Unicode case folding and IPv6 notation: uninterpreted. JSON is the identity, which
  holds of text that is valid UTF-8; Go's encoder replaces other bytes, so names that differ only in
  those become equal after a restart.
* The texts of errors, logging, configuration, INI files and the proxy.
* The NAS HTTP handlers, the profile and search servers, and what they make of the store.
* `FindServers`: a room whose filter fails is skipped; the log line about it is not modelled.
* TLS in `httpfix`: a stream that starts like a TLS handshake is passed through, which is modelled
  but not looked into. Chunked bodies are not part of the stream property.
  A read error before the end of the stream is not modelled.
* HTTP lines are looked at one by one: a continuation of a Host line that goes stays. Requests with
  Transfer-Encoding have no `BodyLength`.
* Header blocks over 64 KiB: `RewritesRequests` is about shorter ones; `HttpHosts.OverlongPasses` says what
  becomes of the others.
- EncTypeX.EncTypeXEncrypt: needs a validate string that is empty or has 8 bytes or more; the code fails on a shorter one.
- NatNeg.Server.HandlePacket: an address check of an IPv4 sender has fewer than 15 bytes or at least 21; the code fails on the lengths between.
- BrowserReply.ReplyComesBack: the client has an IPv4 address, there are fewer than 65536 fields, and names and values are bytes without NUL, as requests and heartbeats, which end strings at a NUL, give them; any other client gets no header.
* `handleServerList`, `sendOwnIP` and the join relay of the browser: the parsing of requests and
  forwarding add nothing hard to the reply.
* `GetNextAvailableUserid`, `GetProfile` and `GetIngameSN` of the store.
* Bytes with a backslash before the first message: the framer reads them as fields; `JunkAgreesExactly` is
  about bytes without one.
* `CreateGameSpyMessage` on a map: it writes the same form in an unspecified order.
