# Ganimedes: the tamper-evident record and the gateway that writes it

This project models the parts of Ganimedes on which its promises rest and proves those
promises about the model.

- **Canonical JSON and the validator.** `Json` is JSON text as a tree, with string bodies and
  number literals kept as spelled, `Members` what an object says under a name. `Canonical` is the RFC 8785 form as a function on trees,
  `CanonicalWriter` the buffer-writing code proved against it, `Decimal`, `Utf16`, `Strings`
  and `Hex` its parts. `JsonCheck` is the duplicate-name and depth checker over the decoder's
  token automaton, `Surrogates` the byte scanner for escapes, `Escapes` what that scanner
  decides about string bodies in UTF-8 (`Utf8`), and `Validator` the two run on one text.
- **The hash-chained log.** `Entry` is the record as encoding/json writes and reads it,
  `EntryLaws` its round trip, `Codec` the sealed bytes, `PayloadLaws` what they say.
  `HashChain` holds chains in the abstract, `Chain` the verifier, `ChainLaws` what an accepted
  log proves. `Logger` is the writer, `Recordable` says what it can write, `Writers` is any
  number of processes on one file.
- **The proxy.** `Ids`, `Request` (the decision tree), `RequestLaws` (the tree told by a
  message's members, without its lookups), `Pending` (reservations), `Gateway`
  (what is done with a judged line), `Session` (both directions interleaved), `Recorded`
  (from message to record), `Framing` (the byte pump).
- **The whole.** `Promises` puts the parts together with the real codec and decision tree: what
  any reader finds in a forwarded line, which records of a session can be lost, and that the
  log on disk verifies.
- **Two smaller protocols.** `Approval` is the human-decision server, `Discovery` the paginated
  tool listing of `scan`.

How the modules hang together: the verifier and the writer are written over `Chain.Env` and
`Logger.Kit`, records of functions, so that chain reasoning never unfolds JSON.
`Codec.EnvOf` and `Logger.KitOf` supply the real codec, and `Logger.CodecTrusted` discharges
the one hypothesis, `Trusted`, under which `Writers.NoFork` is stated. In the same way
`Gateway.Gate` stands for the inspection, `Gateway.GateOf` supplies the real decision tree, and
`Recorded.GateNamed` discharges the hypothesis `Named` of `Session`.

Parameters stand for what lies outside: `parse` for strconv.ParseFloat (the shortest digits and
exponent of the nearest double, or nothing when out of range), `sha` for SHA-256 in hex, `sign`
and `check` for Ed25519 with its base64 text under one key. What is assumed of them is written
in each theorem: no collision among the texts of the logs concerned (`ChainLaws.NoCollisions`),
signatures verifying under their own key, the verifying texts of a presented log all coming
from a given log (`ChainLaws.Unforged`), literals accepted by `parse` holding no JSON
punctuation (`PayloadLaws.Literals`), a double that was read and printed reading back as itself
(`CanonicalLaws.Faithful`), counters below 2^64 being readable (`Recordable.CountersParse`).
Shortest digits are monotone in the double, so comparing the double with 1e-6 and 1e21 is
comparing the decimal value with them; `Decimal.Es6Number` does the latter over `real`.

Two properties one might expect are false of the code, and the model keeps the code as it is.
A validated message can fail to be recorded although it was forwarded or refused:
`Recordable.UnrecordableCall` (a number such as 1e400, valid JSON but outside binary64) and
`Recordable.UnrecordableBatch` (a batch nested exactly 10000 deep, which its record would nest
one deeper). `Recordable.RecordExists` gives the exact condition: a record can be made if and
only if the shape is right, every number is in range and one level of nesting is left.
`Promises.LostRecordsExactly` shows that in every session these two are the only causes.

## Model

| member | source | states |
|---|---|---|
| `Utf16.LessUtf16` | internal/audit/canonical.go:112-121 | the loop decides the lexicographic order of UTF-16 code units |
| `Utf16.UnitsExact` | internal/audit/canonical.go:113-114 | a scalar below 0x10000 encodes as itself and any other as a high and a low surrogate that stand for it, all of sixteen bits |
| `Utf16.LessByCharacters` | internal/audit/canonical.go:108-121 | the order told by characters alone: at the first difference a supplementary character comes before U+E000 to U+FFFF and after the rest of the basic plane, otherwise the smaller scalar, and a proper prefix comes first |
| `Utf16.LessByFirstDifference` | internal/audit/canonical.go:115-120 | less means the smaller unit at the first difference, or a proper prefix |
| `Utf16.EncodeInjective` | internal/audit/canonical.go:112-114 | two scalar strings with the same code units are equal |
| `Utf16.LessTotal` | internal/audit/canonical.go:112-121 | of two names exactly one relation holds: less, greater or equal |
| `Utf16.LessTransitive` | internal/audit/canonical.go:112-121 | the order is transitive |
| `CanonicalWriter.WriteCanonicalString` | internal/audit/canonical.go:129-156 | the buffer grows by the quoted canonical escape of the string |
| `Strings.UnescapeEscape` | internal/audit/canonical.go:129-156 | decoding the canonical escapes gives the string back, so escaping is injective |
| `Strings.EscapeShortest` | internal/audit/canonical.go:123-156 | no spelling of a character is shorter than its canonical escape, and no other of that length without upper-case hex exists |
| `Strings.SimpleExactly` | internal/audit/canonical.go:123-156 | the two-character escapes stand for exactly the eight characters of JSON |
| `Decimal.Es6Number` | internal/audit/canonical.go:173-203 | switching by value, printing with strconv and dropping one zero yields ECMAScript Number-to-string, a text that spells the number the double is |
| `Decimal.NumberReadsBack` | internal/audit/canonical.go:173-203 | read as sign, digits around a point and exponent, the canonical text has the value of the double, zero without a sign |
| `Decimal.LayoutByValue` | internal/audit/canonical.go:187-192 | the text is exponential exactly when the value is outside 1e-6 to 1e21 |
| `Decimal.IntegerByPoint` | internal/proxy/request.go:184-186 | a double is an integer exactly when its shortest digits end at or before the decimal point |
| `Decimal.SwitchByPoint` | internal/audit/canonical.go:187-192 | the 1e-6 and 1e21 comparisons on the value are the -5 and 21 bounds on the decimal point |
| `Decimal.NumberInjective` | internal/audit/canonical.go:173-203 | different doubles have different canonical spellings |
| `Decimal.NumberAlphabet` | internal/audit/canonical.go:173-203 | a spelling is never empty, starts with a digit or minus and uses no JSON punctuation |
| `CanonicalWriter.CanonicalNumber` | internal/audit/canonical.go:161-167 | a literal is printed as its double, or refused exactly when out of range |
| `CanonicalWriter.SortKeys` | internal/audit/canonical.go:83-89 | distinct names come out strictly increasing, none lost and none added |
| `CanonicalWriter.WriteArray` | internal/audit/canonical.go:72-82 | success exactly when every element is representable, and then the canonical array is appended |
| `CanonicalWriter.WriteObject` | internal/audit/canonical.go:83-101 | whatever order the map is ranged in, the sorted canonical object is appended, or an error exactly when a value has no form |
| `CanonicalWriter.WriteCanonical` | internal/audit/canonical.go:54-106 | the recursive writer appends the canonical text, and fails exactly when there is none |
| `Json.PrintUnique` | internal/audit/canonical.go:54-106 | two compact texts that agree, whatever legal tails follow, are the same tree and the same tail |
| `Canonical.SortedUnique` | internal/audit/canonical.go:83-89 | two sorted member lists with the same members are the same list |
| `Canonical.CanonExists` | internal/audit/canonical.go:27-49 | a validated text has a canonical form if and only if all its numbers are in range |
| `Canonical.CanonicalExact` | internal/audit/canonical.go:11-49 | canonical bytes of two validated texts are equal if and only if the texts hold the same value up to member order, escapes and rounding |
| `CanonicalLaws.CanonOrdered` | internal/audit/canonical.go:83-101 | at every depth output names strictly increase and the output is itself strict |
| `CanonicalLaws.CanonIdempotent` | internal/audit/canonical.go:31-106 | canonicalizing twice is canonicalizing once |
| `CanonicalLaws.CanonSameValue` | internal/audit/canonical.go:31-106 | the canonical text holds the value of the text it was made from |
| `JsonCheck.CheckValue` | internal/jsoncheck/jsoncheck.go:44-87 | accepts exactly when a tree within the limits spells the tokens ahead, and consumes exactly its tokens |
| `JsonCheck.CheckArray` | internal/jsoncheck/jsoncheck.go:76-86 | the same for the elements up to the closing bracket |
| `JsonCheck.CheckObject` | internal/jsoncheck/jsoncheck.go:57-86 | the same for members with pairwise distinct decoded names up to the closing brace |
| `JsonCheck.OneValue` | internal/jsoncheck/jsoncheck.go:30-41 | tokens with decodable strings are accepted if and only if they spell exactly one valid tree |
| `Validator.Validate` | internal/jsoncheck/jsoncheck.go:23-42 | a text is accepted, scan over its bytes first, if and only if the lexer reads all of it and its tokens spell one tree with unique decoded names, decodable strings and at most 10000 nested containers |
| `Validator.ScanDecides` | internal/jsoncheck/jsoncheck.go:27-29 | the scan over the whole text passes if and only if every string token decodes and the scan passes what the lexer could not read |
| `Validator.PrintedIsRead` | internal/audit/canonical.go:54-106 | the UTF-8 bytes of a printed tree are, without white space, those of the tokens by which the validator reads that tree |
| `Escapes.DecodesExactly` | internal/jsoncheck/jsoncheck.go:89-128 | a lexically legal body decodes if and only if its unicode escapes are well-paired UTF-16 |
| `Escapes.ItemsSpell` | internal/jsoncheck/jsoncheck.go:95-106 | the scanner's items of a body spell exactly its UTF-8 bytes |
| `Surrogates.Hex4` | internal/jsoncheck/jsoncheck.go:130-149 | sixteen-bit accumulation never wraps and gives the value of four hexadecimal digits, or refuses |
| `Hex.DigitExact` | internal/jsoncheck/jsoncheck.go:130-149 | exactly the sixteen digits in either case count, each for its place |
| `Surrogates.CheckSurrogates` | internal/jsoncheck/jsoncheck.go:93-128 | on any bytes the index loop stays in bounds, ends, and decides the recursive scan |
| `Surrogates.ScanExact` | internal/jsoncheck/jsoncheck.go:89-128 | on every text of literals and other bytes the scan accepts if and only if each literal's escapes are well-paired UTF-16 |
| `EntryLaws.EntryRoundTrip` | internal/audit/audit.go:123-190 | decoding a written line gives back the entry, embedded values as stored |
| `EntryLaws.UnsealedEntry` | internal/audit/verify.go:173-181 | removing hash and sig from a written line leaves exactly the payload's members |
| `EntryLaws.HtmlTwice` | internal/audit/audit.go:182-185 | compact-and-escape is idempotent |
| `EntryLaws.HtmlSame` | internal/audit/audit.go:192-210 | HTML escaping changes neither strictness nor the canonical form |
| `EntryLaws.KeptSame` | internal/audit/audit.go:221-242 | the stored payload re-encodes to the same fields and the same content commitment as the one sealed |
| `EntryLaws.ShapeExactly` | internal/audit/audit.go:138-174 | a record has the right shape exactly when it is a header with its info and nothing of a call, or a call with a tool, a decision, not both result and error, and no info |
| `Codec.ReadWritten` | internal/audit/verify.go:161-191 | the verifier derives from a written line the very bytes the writer sealed |
| `Codec.WrittenIsSealed` | internal/audit/audit.go:383-404 | a line made as the writer makes it passes every per-line check and is the intended link |
| `PayloadLaws.SealFixesPayload` | internal/audit/audit.go:200-219 | equal sealed bytes mean equal payloads: every string, the session info, and embedded values up to value equality |
| `PayloadLaws.LineTells` | internal/audit/audit.go:84-136 | each field of a record, its seal and its session info stand in the written line under the name the format gives them, decoded to the same string, number or list, and optional ones only when set |
| `PayloadLaws.ContentFixesLiterals` | internal/audit/audit.go:221-242 | committed texts are equal if and only if args, result and error agree in presence and token by token, number literals included |
| `HashChain.HeadFixesHistory` | internal/audit/verify.go:126-145 | two linked chains with one head have equally many records with the same bytes at every position |
| `HashChain.PastIsUnique` | internal/audit/verify.go:126-145 | in one chain, positions that link to the same past are the same position |
| `HashChain.OnlyPrefixes` | internal/audit/verify.go:43-46 | a chain whose every record comes from another chain is a prefix of it |
| `Chain.CheckLine` | internal/audit/verify.go:66-147 | the checks on one line succeed exactly when it is sealed, linked to the given hash and next in number, and end in an error exactly when it cannot be judged |
| `Chain.Verify` | internal/audit/verify.go:47-159 | OK if and only if the non-blank lines are an intact chain, with their count; otherwise the first entry that breaks it, or a read error exactly because that entry cannot be judged |
| `Chain.ChainPrefix` | internal/audit/verify.go:43-46 | an accepted log cut after any record is still accepted |
| `ChainLaws.LastHashFixesHistory` | internal/audit/verify.go:30-46 | accepted logs with the same last hash hold the same record at every position, to the literal where content is committed |
| `Promises.HistoryToTheLiteral` | internal/audit/audit.go:379-393 | if a logger wrote the one log, an accepted log with the same last hash holds the same fields and the same tokens at every position |
| `ChainLaws.OnlyTruncation` | internal/audit/verify.go:30-46 | an accepted log whose signed texts all come from another accepted log is a prefix of it, record by record |
| `ChainLaws.PrefixAccepted` | internal/audit/verify.go:43-46 | every prefix of an accepted log is accepted and meets that hypothesis |
| `ChainLaws.WhollyUnderstood` | internal/audit/verify.go:103-114 | the stored object minus its seal has the value of the re-encoded payload |
| `ChainLaws.OnlyKnownMembers` | internal/audit/verify.go:103-114 | every stored member has one of the format's exact names, present if and only if re-encoding writes it |
| `ChainLaws.OnlyKnownInfo` | internal/audit/verify.go:103-114 | inside session_info exactly the five defined names occur |
| `Logger.LastState` | internal/audit/verify.go:243-293 | resumes if and only if the file ends with LF and verifies, with the last record's number and hash |
| `Logger.Open` | internal/audit/audit.go:279-315 | a logger exists exactly when the lock was free and the file is intact; otherwise the lock is as before |
| `Logger.RecordMade` | internal/audit/audit.go:379-402 | every sealed record is the payload given, number, time, session and link put in, with the digest of its own content if it is a call and none if a header, and the hash and signature of its own bytes |
| `Logger.CallSays` | internal/audit/audit.go:336-353 | the record of a call says the tool, arguments, result, error and decision Append was given, absent arguments as null |
| `Logger.HeaderSays` | internal/audit/audit.go:355-367 | the record of a header says version, command, arguments, deny and approve list each in its own field, nil lists as empty ones |
| `Logger.Logger.AppendPayload` | internal/audit/audit.go:373-417 | one well-linked line and the new memory on success, nothing changed on any failure, and the memory always matches the file |
| `Logger.Logger.Append` | internal/audit/audit.go:345-353 | the same for a call, absent arguments written as null |
| `Logger.Logger.AppendSessionHeader` | internal/audit/audit.go:364-367 | the same for a header, nil lists written as empty ones |
| `Logger.Logger.Close` | internal/audit/audit.go:419-430 | releases the lock once and leaves the file alone |
| `Logger.RecordExtends` | internal/audit/audit.go:383-416 | appending a record keeps the chain intact and the memory equal to its end |
| `Logger.CodecTrusted` | internal/audit/audit.go:192-242 | with the real codec every line is read back as the link it was written as |
| `Recordable.RecordExists` | internal/audit/audit.go:373-402 | a record of validated values exists if and only if its shape is right, its numbers fit binary64 and one level of nesting is left |
| `Recordable.HeaderExists` | internal/audit/audit.go:364-367 | a session header can always be recorded |
| `Recordable.UnrecordableCall` | internal/audit/canonical.go:161-167 | a validated result of 1e400 has no record |
| `Recordable.UnrecordableBatch` | internal/proxy/proxy.go:444-458 | a valid batch at the depth limit has no record |
| `Writers.NoFork` | internal/audit/audit.go:272-315 | in every interleaving of opens, appends, closes and kills an intact file stays one chain grown by the successful appends, a broken one is never written, at most one process is live and its memory is the file's end |
| `Writers.VerifyAfter` | internal/audit/verify.go:47-159 | after any such run the verifier says OK with the initial entries plus the successful appends |
| `Writers.OpensWhenFree` | internal/audit/audit.go:279-315 | on an intact file nobody holds, open goes through and resumes at the end of the file |
| `Writers.RefusedWhenHeld` | internal/audit/audit.go:279-300 | while another process holds the lock, open fails and changes nothing |
| `Writers.LastReadAgrees` | internal/audit/verify.go:277-292 | overwriting number and hash line by line ends with the chain's end |
| `Ids.IdKeyExact` | internal/proxy/request.go:189-206 | usable ids share a key if and only if they decode to one string or round to one double |
| `Request.HasFieldAlias` | internal/proxy/request.go:115-127 | the nested loop finds a differently cased spelling exactly when there is one |
| `Request.AgreedExactly` | internal/proxy/request.go:115-127 | exact, case-insensitive, first-match and last-match readers take the same member if and only if the name has no alias |
| `Request.CallExactly` | internal/proxy/request.go:22-93 | a line is judged a tool call if and only if it validates, is unambiguous, has no result or error, and every reader finds the same well-formed call |
| `Request.NoHiddenCall` | internal/proxy/request.go:17-61 | whatever may be forwarded is a validated object that is a tools/call to any reader if and only if it was judged one |
| `Request.JudgedIdsUsable` | internal/proxy/request.go:129-157 | every id answered or reserved is a decodable string or a number in range; a refusal without one answers null |
| `Request.ReplyMeetsRequest` | internal/proxy/request.go:164-206 | a usable reply reads the same for every reader, and meets a reservation if and only if its decoded id is the request's |
| `RequestLaws.ReplyExactly` | internal/proxy/proxy.go:733-742 | a line yields a reply exactly when it is a validated response with a usable id, and then the result is the member named result and the error the member named error |
| `RequestLaws.ResponseExactly` | internal/proxy/request.go:159-187 | told by members, a response has version 2.0, no method, either a result or an error with integer code and string message, and a usable id or, on an error, null |
| `RequestLaws.OtherExactly` | internal/proxy/request.go:36-61 | exactly the well-formed requests for other methods with a usable id are reserved and forwarded |
| `RequestLaws.PassExactly` | internal/proxy/request.go:36-61 | exactly the notifications for other methods and the client's responses pass unreserved |
| `RequestLaws.RefusalAnswersId` | internal/proxy/request.go:151-157 | a refused message is answered under the usable id it holds, and under null if it holds none |
| `RequestLaws.DecideExactly` | internal/policy/policy.go:61-77 | deny wins over approve, and without an engine every tool is allowed |
| `Request.CollectBatchIds` | internal/proxy/proxy.go:476-489 | the loop collects the usable ids in order |
| `Request.BatchIdsExact` | internal/proxy/proxy.go:469-489 | an id is answered if and only if some element carries it validly, in whole UTF-8 and without alias |
| `RequestLaws.BatchIdExactly` | internal/proxy/proxy.go:476-489 | an element gives an id exactly when it is a validated object holding that one usable id without an alias |
| `Pending.Reservations.Remember` | internal/proxy/proxy.go:709-723 | reserves exactly a free key within both bounds; otherwise reports why and changes nothing |
| `Pending.Reservations.Take` | internal/proxy/proxy.go:742-749 | returns and removes exactly the reservation of the key |
| `Pending.RefusesExactly` | internal/proxy/proxy.go:709-723 | a reservation is refused exactly when its key is taken or the table would leave its bounds |
| `Pending.ReservedSound` | internal/proxy/proxy.go:716-722 | after a reservation the byte count is still the sum of sizes and both bounds hold |
| `Pending.ReleasedSound` | internal/proxy/proxy.go:744-748 | after a release the same, the count never negative |
| `Pending.ReleaseUndoes` | internal/proxy/proxy.go:709-748 | releasing a reservation restores the table it was made in |
| `Pending.ReservationsCommute` | internal/proxy/proxy.go:709-748 | operations on different keys do not disturb each other |
| `Gateway.ClientStream.Write` | internal/proxy/proxy.go:628-635 | appends the whole line, or nothing once closed |
| `Gateway.Proxy.BlockCall` | internal/proxy/proxy.go:409-419 | one error line, one record when auditing, never forwarded |
| `Gateway.Proxy.BlockBatch` | internal/proxy/proxy.go:444-458 | one answer for all ids, one record when auditing, never forwarded |
| `Gateway.Proxy.Clear` | internal/proxy/request.go:83-113 | reserves and forwards, or refuses with the reason of the failed reservation |
| `Gateway.Proxy.HandleApproval` | internal/proxy/proxy.go:378-401 | forwards only on Approved with a reservation; no approver, rejection and timeout refuse with their own decision |
| `Gateway.Proxy.InspectRequest` | internal/proxy/request.go:22-93 | the whole effect of a client line on reservations, client stream and records |
| `Gateway.Proxy.RecordResponse` | internal/proxy/proxy.go:733-760 | completes and releases exactly the reservation of a usable response's id |
| `Gateway.AnsweredOrForwarded` | internal/proxy/proxy.go:403-458 | a line is either forwarded in silence, or answered by one line and recorded once as a refusal with the very error the client was shown and the table unchanged; whatever the judgement, under its own ids, tool, arguments and the decision its cause demands |
| `Gateway.ForwardExactly` | internal/proxy/request.go:78-113 | a line is forwarded exactly when it is let pass by policy or human and, with a log, its reservation has room |
| `Gateway.RequestRecordsWellShaped` | internal/audit/audit.go:143-174 | every record asked for on the request side passes the shape check |
| `Gateway.ResponseRecordsWellShaped` | internal/audit/audit.go:143-174 | so does every record completed by a response: one of result and error, a clearing decision |
| `Recorded.RequestRecordsChecked` | internal/proxy/request.go:62-86 | the values in request-side records are validated, so RecordExists decides whether they can be written |
| `Recorded.ResponseRecordsChecked` | internal/proxy/proxy.go:734-757 | so are those in response-side records |
| `Recorded.RefusalRecorded` | internal/proxy/request.go:144-157 | a refusal quoting the message as base64 can be recorded whatever the message was |
| `Session.ExactCorrelation` | internal/proxy/proxy.go:725-760 | in every interleaving each completed record belongs to one reservation answered by a relayed line of its id, none twice and none while outstanding |
| `Promises.CompletedFromMembers` | internal/proxy/proxy.go:733-760 | in every run the record of a completed call holds as result and error exactly those members of one relayed response |
| `Session.BooksBalance` | internal/proxy/proxy.go:344-458 | at every moment, also after a failed forward, every line is cleared, refused or in progress; with a log, allowed records plus outstanding calls equal cleared calls, and refusal records and answers equal refused messages |
| `Session.SentWasPermitted` | internal/proxy/proxy.go:156-173 | at every moment, with a log or without, what was sent is a prefix of the cleared lines, each permitted by policy or human |
| `Session.EveryRecordOk` | internal/proxy/proxy.go:403-458 | a property that handling keeps holds of every record of every run |
| `Promises.ForwardedUnderOnlyReading` | internal/proxy/request.go:17-93 | in every run each line sent has one reading for all readers, and if it is a tools/call then policy or human let that very tool through |
| `Promises.FeedLog` | internal/proxy/proxy.go:757-759 | handing attempts to a live logger writes exactly one line for each that fits, in order, each saying what its attempt said |
| `Promises.AuditSession` | internal/proxy/proxy.go:725-760 | a whole session on a live log leaves exactly the fitting records of its run on the file, in order, and one intact chain |
| `Promises.LostRecordsExactly` | internal/proxy/proxy.go:725-760 | in every run a record handed to the log exists if and only if its numbers fit binary64 and its values stay below the depth limit |
| `Promises.LogVerifies` | internal/audit/audit.go:264-315 | with the real codec, after any run of any writers on a new file the verifier says OK with one entry per successful append |
| `Framing.ReadMessage` | internal/proxy/proxy.go:319-331 | for every fragmentation the next line of the stream, its end, or a refusal above 16 MiB before anything of it is used |
| `Framing.RunPump` | internal/proxy/proxy.go:283-314 | for every fragmentation, handler and writer the effect is that of the stream's messages one by one |
| `Framing.MessagesCover` | internal/proxy/proxy.go:266-282 | splitting into messages loses no byte |
| `Framing.MessagesTerminated` | internal/proxy/proxy.go:279-282 | only the last message can lack its LF |
| `Framing.PumpExact` | internal/proxy/proxy.go:266-314 | the output is exactly the kept messages before the first one that is oversized or refused by the writer, and the fault says how the session ended |
| `Framing.Verbatim` | internal/proxy/proxy.go:266-282 | the output of an observed direction is always a prefix of the stream, and all of it if and only if every message is within the limit and taken by the writer |
| `Approval.DecidedByItsOwnClick` | internal/approval/approval.go:260-308 | in every interleaving Approved needs a token-carrying approve click for that id after registration and Rejected such a reject click, clicks and requests pair at most once, sends never block, and listed requests are undecided |
| `Approval.ClickDecides` | internal/approval/approval.go:260-308 | after any run, a request that registers and is found by an approve click returns Approved, and by a reject click Rejected |
| `Approval.NeverBlocks` | internal/approval/approval.go:294-308 | a click that found a request finds its channel empty |
| `Approval.ReturnUnlists` | internal/approval/approval.go:285-292 | a returned request is no longer listed |
| `Discovery.Connection.ReadResponse` | internal/scan/scan.go:395-430 | the answer is the first line with the wanted id; earlier lines are skipped, later ones kept |
| `Discovery.ParseToolsPage` | internal/scan/scan.go:289-327 | the loop yields the page's tools in order and its cursor, or fails on any malformed part |
| `Discovery.PageExactly` | internal/scan/scan.go:289-327 | a result parses to a page exactly when the page lists the elements of its tools member in order and continues at its nextCursor member, if and only if there is one |
| `Discovery.ToolExactly` | internal/scan/scan.go:300-319 | an element is a tool exactly when its name is a nonempty string and its description, if there is one, a string, both decoded |
| `Discovery.AnswerExactly` | internal/scan/scan.go:406-421 | a line answers with a result exactly when it is a valid 2.0 response that holds it, without error or method |
| `Discovery.Discover` | internal/scan/scan.go:229-287 | messages sent and tools returned are those of the recursive exchange |
| `Discovery.CompleteOrNothing` | internal/scan/scan.go:229-287 | whatever the server sends and whenever it stops taking requests, tools are returned if and only if every request was taken and the pages lead from the first to one without a cursor within 1024 pages and without a repeated cursor, and then in order and complete |
| `Discovery.CompleteOverTexts` | internal/scan/scan.go:229-327 | told over the result texts themselves: tools are returned exactly when the members tools and nextCursor of the results lead from the first page to one without continuation and list them in order |
| `Discovery.NeverAsksTwice` | internal/scan/scan.go:253-286 | whatever the server does, at most 1024 pages are asked for, numbered in order, and no cursor twice |
| `Discovery.AnswersStayApart` | internal/scan/scan.go:250-265 | a line answering one page's id is never taken for another page |

## Left out

- Syntax of JSON tokens: the lexer is encoding/json's. Trees start after it; `Validator` takes a text as the lexer splits it, white space included, and `Surrogates` works on raw bytes.
- UTF-8: canonical bytes are modelled as the characters they encode, and the utf8.Valid test of the validator is the distinction between a text and a `Garbled` line.
- ParseFloat and shortest digits, SHA-256, Ed25519 and base64: parameters with the hypotheses named above; results are about payloads, since the text of `sig` is not under the hash.
- Framing.RunPump: a write succeeds or fails as a whole, because the code promises nothing about a partial one.
- Logger.Logger.AppendPayload: a write stores the whole line or nothing, because the code promises neither atomic lines nor durability.
- Order in which encoding/json writes the members of a Go map: `Canonical.CanonicalExact` makes it irrelevant, and the model keeps the stored order.
- Session: the byte passthrough with neither rules nor log installs no handler and is `Framing` alone.
- Discovery.Connection.ReadResponse: a line over 16 MiB, the byte limit on the whole exchange and a read error are the end of the lines.
- Kernel locks, paths, symbolic links, key files, processes, pipes, grace timers, HTTP headers and the Host check, page rendering, command line, risk keywords, error wording: operating-system or presentational.
