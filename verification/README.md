# Turjmp verification model

Turjmp is a bastion: users reach databases, shells and remote desktops through it, and it
decides, filters, redacts and records. This project models the parts of it that are
algorithms and state machines rather than plumbing, in Dafny, and proves what they promise.
`dafny verify dfyconfig.toml` checks all of it.

| component | files |
|---|---|
| streaming redaction of terminal output | `Redaction`, `SecretSets`, `SecretShown`, `SecretPairs`, `TerminalScrubber` |
| line discipline in front of usql | `InputGuard` |
| MySQL packets and result sets | `MySQLCodec`, `MySQLResultSet`, `MySQLWriter` |
| audit of the PostgreSQL protocol, and the relay around it | `PostgresAudit`, `PostgresRelay`, `PostgresOrder`, `PostgresRuns`, `PostgresLookups`, `PostgresCare`, `PostgresHistories` |
| UTF-16 to UTF-8 and JSON strings of the RDP plugin | `Utf8`, `PluginText`, `JsonStrings` |
| permissions over a node graph | `ActionList`, `Permissions` |
| native RDP sessions | `RDPReason`, `SessionStore`, `NativeRDP`, `RDPRuns` |
| rotation of refresh tokens | `RefreshTokens` |
| rate limit | `RateLimit` |
| command filter of the SSH proxy | `CommandFilter` |
| token refresh in the web client | `RefreshQueue` |
| shell quoting | `ShellQuote` |

Code that changes state in place is modelled by classes and loops, each proved against a
function of the old state; the theorems are about those functions. Concurrent callers are
steps of a machine, and the theorems hold for every sequence of steps. Each SQL statement,
and each stretch of code under a lock, is one step.

## What the proofs found

- A chunked scrub equals one replacement over the whole stream exactly for secrets of which
  no proper prefix ends as `[redacted]` ends. `]a` is not one of them: the marker's own
  bracket, held back in the tail, is taken for the start of the secret
  (internal/proxy/db/web_terminal.go:306-319). Being part of the marker does no harm by
  itself.
- A secret that cannot overlap the marker is never shown, whatever the other secrets are;
  brackets as such do no harm. For one secret alone that is not quite necessary: `[x[x[` ends
  as the marker begins, and yet is never shown, because an earlier copy of it always takes the
  place of the one that would be completed by a marker. `SecretShown` has the exact condition.
  With a second secret such as `q` beside it, it is shown: `SecretPairs`.
- A row or column definition whose packet has exactly 2^24-1 bytes is written without the
  empty packet that ends it in the MySQL protocol. A client that joins packets then reads no
  result set (internal/proxy/db/mysql_protocol.go:128-140).
- The PostgreSQL relay forwards a ReadyForQuery to the client before the audit observes it
  (internal/proxy/db/postgres_server.go:461-468). A client that waits for it can therefore
  begin its next query too early, and that query is recorded as flushed although the server
  answers it.
- The audit counts a Parse, Bind or Close that the server skips behind an error
  (internal/proxy/db/postgres_audit.go:103-137). Later records can then name SQL the server
  never ran, without any race. A client that is careful, in the sense of `PostgresCare`, does
  not get there; for such a client the race above is the only way a record goes wrong, and it
  always makes one go wrong or go missing.
- A logout does not reach a login past its checks or a refresh past its revoke step: the token
  that is inserted afterwards stays usable (internal/service/auth.go:71-96).
- An Execute of a closed portal is recorded with the unnamed statement's text
  (internal/proxy/db/postgres_audit.go:120-123).
- A result set without columns does not decode as a result set: its column count is the
  first byte of an OK packet.
- JSON decoding stops once fewer than five bytes of its buffer are free
  (native/rdp-freerdp-plugin/turjmp_plugin.c:847-848), so a string of two characters or more
  survives only if enough text follows; and an escaped surrogate pair is decoded to two
  surrogates instead of one character.
- `shellQuote` leaves `#` unquoted among safe characters (internal/service/sdk.go:388-391). A
  value of safe characters that starts with it is read as a comment, and hides what follows
  it on the line.
- The comments in postgres_server.go:400 and :447 say the audit only counts messages; the
  code records SQL text, and the model follows the code.

## Model

| member | source | states |
|---|---|---|
| TerminalScrubber.NewTerminalOutputScrubber | internal/proxy/db/web_terminal.go:269-300 | There is no scrubber exactly when all values are empty; otherwise every non-empty value is listed once, with the text [redacted], longer ones first, the tail is empty, and one byte less than the longest value is held back. |
| TerminalScrubber.Collect | internal/proxy/db/web_terminal.go:270-288 | The list holds each non-empty value exactly once and nothing else, and the reported maximum is the length of a longest one. |
| TerminalScrubber.SortByLength | internal/proxy/db/web_terminal.go:292-294 | The result is a permutation of the list with longer values before shorter ones. |
| TerminalScrubber.TerminalOutputScrubber.Scrub | internal/proxy/db/web_terminal.go:302-321 | A call turns held tail and new data, with every secret replaced in list order, into emitted bytes and a new tail; a flush empties the tail; the tail never exceeds the number of bytes to hold back. |
| TerminalScrubber.CopyPTYOutput | internal/proxy/db/web_terminal.go:233-256 | What reaches the browser until the shell closes is the output of the whole run of chunks with its final flush, and nothing stays held; without a scrubber it is all the shell wrote. |
| Redaction.OneShot | internal/proxy/db/web_terminal.go:302-321 | For one secret and any replacement text the secret does not straddle, every way of cutting a stream into chunks gives, flushed, one leftmost replacement over the whole stream. |
| Redaction.OneShotIff | internal/proxy/db/web_terminal.go:269-321 | For one secret, chunked output equals one replacement over the stream for all chunkings if and only if no proper non-empty prefix of the secret ends the way the marker ends (one is a suffix of the other). |
| Redaction.StraddleBreaks | internal/proxy/db/web_terminal.go:306-319 | For every secret that straddles the marker, two chunks are constructed whose scrubbed output differs from the one replacement. |
| Redaction.NoCloseNoStraddle | internal/proxy/db/web_terminal.go:281-284 | A secret with no closing bracket before its last byte never straddles, so the condition holds for every secret without brackets, whether or not it is part of the marker. |
| Redaction.RunResumes | internal/proxy/db/web_terminal.go:302-321 | After any chunks, from any held tail, emitted bytes followed by a scan of the tail equal one scan of the old tail and all chunks. |
| Redaction.Resume | internal/proxy/db/web_terminal.go:306-319 | Cutting off the held tail and scanning it again with any further input gives what one scan of everything gives, also where a marker is cut in half or a replacement shrinks the text below the tail length. |
| SecretSets.NeverShown | internal/proxy/db/web_terminal.go:269-321 | In any list of secrets, which may contain one another and overlap the marker, each one that itself cannot overlap the marker (no end of one begins the other, neither contains the other) occurs, for any chunking, neither in what was emitted followed by the tail nor in the flushed output. |
| SecretSets.PartNeverShown | internal/proxy/db/web_terminal.go:269-321 | Nor does any secret that such a secret of the list is part of. |
| SecretSets.BracketsElsewhereApart | internal/proxy/db/web_terminal.go:281-284 | A secret cannot overlap the marker if it is no part of it and its brackets, if any, stand in places like those of [::1]: no opening one last or before an r, no closing one first or behind a d. |
| SecretSets.BracketsInsideApart | internal/proxy/db/web_terminal.go:281-284 | Nor can it if neither it nor the marker is part of the other and its brackets stand away from its ends: no closing one among the first nine bytes, no opening one among the last nine. |
| SecretSets.PlainIsApart | internal/proxy/db/web_terminal.go:281-284 | Nor can any secret without brackets that is no part of the marker. |
| SecretSets.ApartNoStraddle | internal/proxy/db/web_terminal.go:281-284 | A secret that cannot overlap the marker does not straddle it, so alone it is scrubbed as by one replacement. |
| SecretSets.ScrubKeepsSafe | internal/proxy/db/web_terminal.go:302-321 | One call keeps the invariant behind that: the secret is not in emitted text and tail, and a tail that is short holds a whole marker that it does not reach across. |
| SecretSets.StaysFree | internal/proxy/db/web_terminal.go:307-309 | Replacing one secret removes it entirely and brings no other secret in. |
| SecretSets.RedactFree | internal/proxy/db/web_terminal.go:307-309 | After the whole list of replacements no secret of it that cannot overlap the marker occurs, whichever order they came in and whatever the others are. |
| SecretSets.UnchangedIff | internal/proxy/db/web_terminal.go:302-321 | A stream in which no secret of the list occurs arrives unchanged for any chunking; and only such a stream does, if no secret of the list can overlap the marker. |
| TerminalScrubber.TerminalNeverShows | internal/proxy/db/web_terminal.go:233-321 | For the list the constructor builds from any values, each of them that cannot overlap the marker occurs neither in emitted bytes and tail nor in what the browser gets. |
| TerminalScrubber.TerminalNeverShowsPlaces | internal/proxy/db/web_terminal.go:145 | In particular each that is no part of the marker and has its brackets, if any, in such places, as a DSN with the bracketed address of an IPv6 host and a token do. |
| SecretShown.ShownIff | internal/proxy/db/web_terminal.go:269-321 | For one secret, some way of cutting some stream shows it if and only if it can stand over a marker, agreeing with it wherever they overlap, and no copy of it starts earlier in what it has before the marker followed by itself. |
| SecretShown.OneBracketIff | internal/proxy/db/web_terminal.go:269-321 | For a secret with at most one opening bracket that is: if and only if it can overlap the marker at all. |
| SecretShown.OverlapsYetHidden | internal/proxy/db/web_terminal.go:306-309 | With more opening brackets it is not: [x[x[ can overlap the marker, and no stream shows it. |
| SecretPairs.PairShownIff | internal/proxy/db/web_terminal.go:269-321 | For two secrets without a common byte, some way of cutting some stream shows one of them if and only if one of them can overlap the marker. |
| SecretPairs.HiddenAloneShownBeside | internal/proxy/db/web_terminal.go:302-321 | The secret [x[x[, which alone is never shown, is shown by the chunk [x[xq when q is a secret as well. |
| SecretPairs.ShownAloneHiddenBeside | internal/proxy/db/web_terminal.go:302-321 | With common bytes an overlap is not enough: ]ab can overlap the marker and is shown alone, but neither it nor b is ever shown when b is a secret as well. |
| TerminalScrubber.TerminalOneSecret | internal/proxy/db/web_terminal.go:233-321 | If the values come down to one secret that does not straddle the marker, the browser gets one replacement over the whole shell output. |
| TerminalScrubber.RunSnoc | internal/proxy/db/web_terminal.go:302-321 | A run of calls seen from its last call: emitted text and tail are those of the run before, scrubbed on. |
| InputGuard.UsqlInputGuard.Filter | internal/proxy/db/web_terminal.go:377-407 | Output and open line after a message are those of the byte-by-byte line discipline started at the open line before it. |
| InputGuard.UsqlInputGuard.BlockCurrentLine | internal/proxy/db/web_terminal.go:409-411 | The open line is blocked exactly when its first byte that is not white space is a backslash. |
| InputGuard.MetaIff | internal/proxy/db/web_terminal.go:409-411 | A meta-command is a line whose first byte that is not white space is a backslash. |
| InputGuard.Guard | internal/proxy/db/web_terminal.go:377-407 | The guard passes on exactly as many bytes as it is given. |
| InputGuard.GuardConcat | internal/proxy/db/web_terminal.go:377-407 | Filtering two messages one after the other equals filtering their concatenation, in output and in open line. |
| InputGuard.GuardAllIsGuard | internal/proxy/db/web_terminal.go:332-407 | The concatenated outputs for any list of messages are the output for the concatenated messages. |
| InputGuard.TypeFollows | internal/proxy/db/web_terminal.go:377-407 | A line editor with the same keys, fed by the guard, keeps the same open line as one fed directly, and has submitted the direct one's lines without the meta-commands. |
| InputGuard.OnlyMetaCommandsDropped | internal/proxy/db/web_terminal.go:332-411 | However the keys are cut into messages, the lines submitted behind the guard are exactly the lines typed, with their end keys and in order, minus those that are meta-commands. |
| InputGuard.EditorKeys | internal/proxy/db/web_terminal.go:377-407 | The keys of that editor: a return or line feed submits the line, Ctrl-C and Ctrl-U drop it, backspace and delete undo the byte before and do nothing on an empty line, every other byte is added. |
| InputGuard.PassesAllBut | internal/proxy/db/web_terminal.go:377-407 | Byte by byte: the return or line feed behind an open line that is a meta-command goes out as Ctrl-U, every other byte as it came; the open line kept is that of the editor. |
| MySQLWriter.WriteLenEncInt | internal/proxy/db/mysql_protocol.go:514-530 | Appends the length-encoded form of the number and nothing else. |
| MySQLWriter.WriteLenEncString | internal/proxy/db/mysql_protocol.go:502-505 | Appends the length-encoded form of the string and nothing else. |
| MySQLCodec.LenEncIntRoundTrip | internal/proxy/db/mysql_protocol.go:514-558 | Every 64-bit number written anywhere in a payload is read back, and reading stops right behind it. |
| MySQLCodec.LERoundTrip | internal/proxy/db/mysql_protocol.go:519-558 | A number below 256^k survives k little-endian bytes. |
| MySQLCodec.LenEncIntIs | internal/proxy/db/mysql_protocol.go:514-530 | The form of a number: one byte below 251, else FC, FD or FE and two, three or eight bytes, the shortest that will do. |
| MySQLCodec.CutIntNotRead | internal/proxy/db/mysql_protocol.go:532-558 | A number whose bytes are cut off by the end of the payload is not read. |
| MySQLCodec.LenEncStringRoundTrip | internal/proxy/db/mysql_protocol.go:502-558 | Every string written anywhere in a payload is read back, and reading stops right behind it. |
| MySQLCodec.CutStringNotRead | internal/proxy/db/mysql_protocol.go:502-558 | Nor is a string that is cut off. |
| MySQLWriter.RowPacket | internal/proxy/db/mysql_protocol.go:443-454 | The payload is the concatenation of the encoded cells in order. |
| MySQLCodec.RowRoundTrip | internal/proxy/db/mysql_protocol.go:443-454 | A row no longer than a packet is read back cell by cell, NULLs told from strings, if it ends where the payload ends, and is not read at all if more follows. |
| MySQLCodec.RowIsNoMarker | internal/proxy/db/mysql_protocol.go:128-131 | A non-empty row that fits a packet starts neither with 0xFE nor with 0xFF, so it cannot be taken for EOF or ERR. |
| MySQLWriter.ColumnDefinitionPacket | internal/proxy/db/mysql_protocol.go:423-439 | The payload is the six strings in protocol order and the thirteen fixed bytes. |
| MySQLCodec.ColumnRoundTrip | internal/proxy/db/mysql_protocol.go:423-439 | A client reading a column definition that fits a packet gets the column's name and type. |
| MySQLCodec.ColumnDefinitionIs | internal/proxy/db/mysql_protocol.go:423-439 | A column definition, byte by byte: the word def, schema, table, table, name and name as strings, then twelve more bytes behind their number: character set 33, length 1024, the type, no flags, no decimals. |
| MySQLCodec.ColumnTooLong | internal/proxy/db/mysql_protocol.go:423-439 | With anything behind it in its payload, a column definition is not read as one. |
| MySQLCodec.StringsRoundTrip | internal/proxy/db/mysql_protocol.go:423-430 | Any list of length-encoded strings is read back, with the position behind the last. |
| MySQLWriter.WriteMySQLPacket | internal/proxy/db/mysql_protocol.go:128-140 | A payload over 2^24-1 bytes is refused and nothing is written; otherwise the framed packet is written, without an error exactly if the connection takes all of it, and as far as it does. |
| MySQLResultSet.PacketRoundTrip | internal/proxy/db/mysql_protocol.go:108-140 | Reading the front of a stream that starts with a written packet gives its sequence number, its payload and the rest of the stream. |
| MySQLResultSet.FrameConcat | internal/proxy/db/mysql_protocol.go:356-403 | Framing two lists of payloads one after the other continues the sequence numbers modulo 256. |
| MySQLResultSet.ColumnsDecode | internal/proxy/db/mysql_protocol.go:364-374 | Framed column definitions, whatever follows, decode to the columns, with consecutive sequence numbers; for a client that joins packets, if none of them is full. |
| MySQLResultSet.RowsDecode | internal/proxy/db/mysql_protocol.go:386-403 | Framed rows and their EOF packet, whatever follows, decode to exactly the rows, and no row is taken for the end; for a client that joins packets, if none of them is full. |
| MySQLResultSet.DecodeWritten | internal/proxy/db/mysql_protocol.go:350-405 | A complete result set, sequence numbers 1, 2, 3, ... modulo 256, whatever follows it, decodes to exactly its columns and rows if it has a column and, for a client that takes a packet of 2^24-1 bytes to be continued by the next one, no payload of that length; otherwise to no result set. |
| MySQLResultSet.ColumnsFail | internal/proxy/db/mysql_protocol.go:128-140 | A client that joins packets reads no columns if one of their definitions is of full length. |
| MySQLResultSet.RowsFail | internal/proxy/db/mysql_protocol.go:128-140 | Nor does it read the rows if one of them is of full length. |
| MySQLResultSet.FullRow | internal/proxy/db/mysql_protocol.go:128-140 | A row with one cell of 16777211 bytes is of full length, and is written all the same. |
| MySQLWriter.WriteColumns | internal/proxy/db/mysql_protocol.go:356-379 | Without an error the connection carries the column count, all column definitions and the EOF packet, numbered from 1; an error comes from the first of them that is too long or that the connection does not take, with everything before it written. |
| MySQLWriter.WriteResultSet | internal/proxy/db/mysql_protocol.go:350-405 | Success means that all rows were scanned, no error came behind them, and count, columns, EOF, rows and EOF are on the connection, numbered from 1, with the rows counted. A failed scan or an error behind the last row ends it with what precedes it written; a payload too long, or one the connection breaks in, ends it there; and the count is that of the rows written whole. |
| MySQLWriter.EndsOneWay | internal/proxy/db/mysql_protocol.go:350-405 | That leaves no choice: result, count and everything on the connection are determined by the query, the error it meets and how much the connection takes. |
| MySQLWriter.PayloadsAt | internal/proxy/db/mysql_protocol.go:339-403 | Which payload stands where: count, columns, EOF, rows, EOF. |
| MySQLWriter.ColumnsOfAt | internal/proxy/db/mysql_protocol.go:365-370 | Column i carries the i-th name and the wire type of the i-th database type, or of the empty type name where there is none. |
| MySQLWriter.ColumnTypeIs | internal/proxy/db/mysql_protocol.go:471-498 | The wire type of each database type name, in any letter case, by its number in the protocol; any other name is a string of variable length. |
| MySQLWriter.WrittenReadsBack | internal/proxy/db/mysql_protocol.go:350-405 | What WriteResultSet left on a connection decodes to the query's columns and rows, or to no result set without columns or, for a client that joins packets, with a payload of full length. |
| PostgresAudit.PostgresAuditState.ObserveFrontend | internal/proxy/db/postgres_audit.go:95-139 | Each client message changes statements, portals and pending queries as the protocol says, and writes no record. |
| PostgresAudit.PostgresAuditState.ObserveBackend | internal/proxy/db/postgres_audit.go:148-160 | A completion or error closes the oldest pending query with its outcome, ReadyForQuery closes all of them neutrally in order, other messages close none; statements and portals stay. |
| PostgresAudit.PostgresAuditState.BeginLocked | internal/proxy/db/postgres_audit.go:165-170 | The query becomes the last pending one. |
| PostgresAudit.PostgresAuditState.FinishNext | internal/proxy/db/postgres_audit.go:178-195 | The oldest pending query, if there is one, leaves the queue and gets the next record; otherwise nothing happens. |
| PostgresAudit.PostgresAuditState.FlushPending | internal/proxy/db/postgres_audit.go:204-216 | All pending queries get neutral records in order and none stays pending. |
| PostgresAudit.NothingLostOrReordered | internal/proxy/db/postgres_audit.go:165-216 | Under every interleaving of client messages, backend messages taken under the lock and records written after it, and whatever the server sends, records written, then taken, then pending are the queries begun, each once and in order. |
| PostgresAudit.ClosesOldest | internal/proxy/db/postgres_audit.go:148-216 | What a backend message closes, followed by what stays pending, is what was pending. |
| PostgresAudit.WritesDrain | internal/proxy/db/postgres_audit.go:178-216 | What was taken under the lock is written, all of it and in order. |
| PostgresAudit.ReadyLeavesNothing | internal/proxy/db/postgres_audit.go:204-216 | Whatever is pending at any time after a ReadyForQuery was taken began after it, and is the newest part of what was begun. |
| PostgresAudit.StatementKept | internal/proxy/db/postgres_audit.go:103-106 | A statement name stands for the text of its last Parse, or for nothing after a Close, across all other messages. |
| PostgresAudit.PortalKept | internal/proxy/db/postgres_audit.go:107-115 | A portal keeps the text its last Bind with a text found, or nothing after a Close, whatever Parse or Close later does to statements, and across Binds of it that find no text. |
| PostgresAudit.TextIsTextAtBind | internal/proxy/db/postgres_audit.go:103-127 | Counting every message, skipped or not, as the audit does: an Execute begins a query with the SQL its statement name stood for at Bind, with any other messages in between, a later Parse or Close of that name included. |
| PostgresAudit.ClosedPortalFallsBack | internal/proxy/db/postgres_audit.go:116-137 | An Execute of a closed portal is recorded with the unnamed statement's text, and not at all if there is none. |
| PostgresRuns.StepInvariant | internal/proxy/db/postgres_server.go:401-476 | Every step of client, relay, audit and server keeps the books: what is owed to the audit are exactly the replies under way, followed by what the server skips before its next ReadyForQuery; and every answered query ran the SQL it was begun with. |
| PostgresRuns.RepliesFindTheirQueries | internal/proxy/db/postgres_server.go:401-476 | With a client that waits for ReadyForQuery, in every run in which no Execute is begun with another text than the client counts on and no query begins between forwarding and observing a ReadyForQuery: every record of an answered query carries the SQL the server ran and the outcome it had, and once all is handled, what is not recorded was skipped. |
| PostgresRuns.AttributedIffNoRace | internal/proxy/db/postgres_server.go:461-468 | In such runs, once all messages are handled, every record is right and complete if and only if no query began in that window. |
| PostgresCare.CarefulNeverStrays | internal/proxy/db/postgres_audit.go:95-139 | A client that executes no portal whose text hangs on a Parse, Bind or Close sent behind an Execute of an earlier group, unless set anew, never begins an Execute with another text than it counts on, whatever the server answers, skips and forgets. |
| PostgresHistories.CanStrayIff | internal/proxy/db/postgres_audit.go:95-139 | Exactly which scripts of client messages can stray: some run of client, relay and server in which the client sends the script begins an Execute with another text than the client counts on if and only if, under some history of which Executes fail and what is forgotten, the text counting all messages is not the text counting those that were not skipped. Interleaving adds nothing. |
| PostgresHistories.RunTraced | internal/proxy/db/postgres_server.go:401-476 | Every run has such a history: its failures and the messages it skipped, with the same tables, the same count of the client and the same strays, however the queued messages go on. |
| PostgresHistories.HistoryRuns | internal/proxy/db/postgres_server.go:401-476 | Every history a waiting client can have is that of a run. |
| PostgresCare.CarefulRightIffNoRace | internal/proxy/db/postgres_server.go:401-476 | For such a client every record of an answered query carries the SQL the server ran and its outcome as long as there is no race, and once all messages are handled if and only if there was none. |
| PostgresCare.TidyRightIffNoRace | internal/proxy/db/postgres_server.go:401-476 | The same for a client that sends no Parse, Bind or Close that changes a lookup behind an Execute of the same group. |
| PostgresLookups.OneStatementIff | internal/proxy/db/postgres_audit.go:95-139 | Between two groups, one more statement, whatever its outcome, is recorded with the SQL the server runs for it if and only if the text the audit has for it is the text the server has. |
| PostgresLookups.ContinuationsRightIff | internal/proxy/db/postgres_audit.go:95-139 | Between two groups, every one-statement continuation is recorded right if and only if the audit agrees with the server on every open portal and every live statement. |
| PostgresLookups.SkippedParseMisleads | internal/proxy/db/postgres_audit.go:103-115 | A concrete run without a race, of a waiting client that uses live statements and open portals only, in which a successful Execute is recorded with SQL the server never ran, because a Parse behind a failed Execute was skipped. |
| PostgresRuns.WaitingClientCanRace | internal/proxy/db/postgres_server.go:461-468 | A concrete run of a waiting client in which its second query is recorded neutrally although the server completed it. |
| PluginText.IdentityPartToUtf8 | native/rdp-freerdp-plugin/turjmp_plugin.c:238-294 | For a null pointer, bytes or UTF-16 units the buffer holds the text and a terminator inside its bounds. |
| PluginText.UnitsToUtf8 | native/rdp-freerdp-plugin/turjmp_plugin.c:251-293 | A buffer of 4 * length + 1 bytes is enough: every store and the terminator stay inside it, and it holds the UTF-8 form of the code points, zero after them. |
| PluginText.StoreUtf8 | native/rdp-freerdp-plugin/turjmp_plugin.c:269-290 | Appends the 1 to 4 octets of one code point and leaves the rest of the buffer zero. |
| Utf8.DecodeEncoded | native/rdp-freerdp-plugin/turjmp_plugin.c:269-290 | A strict reader (section 3 of RFC 3629) of the octets gets the code points back, and rejects them exactly when one is a surrogate. |
| Utf8.CodePointsOfUtf16 | native/rdp-freerdp-plugin/turjmp_plugin.c:257-268 | Reading the UTF-16 form of any characters gives the characters. |
| Utf8.Utf16OfCodePoints | native/rdp-freerdp-plugin/turjmp_plugin.c:257-268 | Any units are the UTF-16 form of what is read from them: nothing is lost, lone surrogates included. |
| Utf8.TranscodingIff | native/rdp-freerdp-plugin/turjmp_plugin.c:251-293 | The bytes are valid UTF-8 if and only if the units are well-formed UTF-16, and then they spell the same characters. |
| PluginText.JsonEscape | native/rdp-freerdp-plugin/turjmp_plugin.c:296-351 | A buffer of 6 * length + 1 bytes is enough for the escaped value and its terminator, and holds exactly it; a null pointer counts as the empty string. |
| PluginText.PutEscaped | native/rdp-freerdp-plugin/turjmp_plugin.c:307-347 | Appends the escape of one byte and leaves the rest of the buffer zero. |
| JsonStrings.EscapedIsJson | native/rdp-freerdp-plugin/turjmp_plugin.c:296-351 | The escaped value between quotes is a JSON string (section 7 of RFC 8259) that stands for the value, and ends at the closing quote. |
| PluginText.AppendUtf8 | native/rdp-freerdp-plugin/turjmp_plugin.c:745-778 | Appends the code point exactly when its octets and a terminator fit; otherwise nothing changes. |
| PluginText.ReadTurn | native/rdp-freerdp-plugin/turjmp_plugin.c:791-846 | One turn of the decoding loop stays inside text and buffer, and appends and reads on as the specification of a turn says, or stops and changes nothing. |
| PluginText.DecodeString | native/rdp-freerdp-plugin/turjmp_plugin.c:786-852 | A buffer of remaining length + 1 bytes is enough for everything decoded and its terminator, and holds what the specification of the loop leaves in it. |
| PluginText.JsonGetString | native/rdp-freerdp-plugin/turjmp_plugin.c:780-853 | Null exactly when no string starts there; otherwise the buffer is as long as the text from the opening quote on, and holds what the specification of the loop decodes, and a terminator. |
| JsonStrings.EscapeRoundTripIff | native/rdp-freerdp-plugin/turjmp_plugin.c:296-351 | Decoding an escaped value, its closing quote and any further text gives the value if and only if the value has fewer than two bytes or its escaped form and the further text are together at least two bytes longer than the value; two bytes behind the quote always suffice, despite the early stop. |
| JsonStrings.TurnReads | native/rdp-freerdp-plugin/turjmp_plugin.c:791-846 | A turn reads one character: a byte as it is, a two-letter escape or four hexadecimal digits by the tables of RFC 8259, and stops at any other escape; there is always room for it. |
| JsonStrings.DecodeStops | native/rdp-freerdp-plugin/turjmp_plugin.c:780-853 | For any text at all, what is decoded are its characters up to the closing quote, its end or an escape that is none; or up to the first of them that leaves fewer than five bytes of the buffer free. |
| JsonStrings.StringDecodedIff | native/rdp-freerdp-plugin/turjmp_plugin.c:780-853 | A JSON string (section 7 of RFC 8259, with every kind of escape) is decoded to its value if and only if it has no surrogate pair and either fewer than two characters or at least four bytes more text than all but the last of them decode to. |
| ActionList.NormalizeActions | internal/repository/store.go:949-970 | The text is the granted list joined with commas. |
| ActionList.CleanedHolds | internal/repository/store.go:953-965 | The list holds exactly the non-empty trimmed actions, none of them twice. |
| ActionList.CleanedInOrder | internal/repository/store.go:953-965 | Each stands in the order in which it first appears in the list given. |
| ActionList.GrantedIs | internal/repository/store.go:949-970 | What is granted are the trimmed actions that are not empty; connect, and only connect, if there is none. |
| ActionList.LikeIsOccurs | internal/repository/store.go:594 | A LIKE pattern of a wildcard-free text between two % matches exactly the texts that contain it. |
| ActionList.CommaSearch | internal/repository/store.go:594 | A comma-free text between commas occurs in a comma-enclosed text exactly when it is one of the comma-separated pieces. |
| ActionList.PatternFindsPiece | internal/repository/store.go:594-617 | For any listed actions, commas included, the query's pattern finds an action exactly when it is a comma-separated piece of a granted one. |
| ActionList.PatternFindsAction | internal/repository/store.go:949-970 | For comma-free actions it finds an action exactly when it is in the trimmed, deduplicated list, or is connect and that list is empty. |
| ActionList.PatternFindsGranted | internal/repository/store.go:594-617 | For any action at all, wildcards and commas included, the pattern matches exactly when the action is a pattern for consecutive comma-separated pieces of what is granted. |
| ActionList.GrantsPlainAction | internal/repository/store.go:594-617 | For an action without wildcards and commas that means being one of the pieces, and for comma-free lists one of the granted actions. |
| Permissions.NodeIdsAreAncestors | internal/repository/store.go:574-588 | On every node graph, cyclic parent links included, the recursive query ends and finds exactly the nodes to which a chain of parent links leads from the node of the asset's own row or from a node that asset_nodes links to it. |
| Permissions.MatchesIffCovers | internal/repository/store.go:589-616 | A permission row passes the WHERE clause exactly when it is active, in its time window, grants the action, and covers the user directly or by a group, the asset directly or by a node above it, and the account or no account in particular. |
| Permissions.HasPermissionIffCovered | internal/repository/store.go:572-619 | For any request, the answer is yes exactly when some permission covers it and grants the action. |
| Permissions.PlainActionIffListed | internal/repository/store.go:572-619 | For a plain action and comma-free lists: exactly when some permission covers the request and lists the action, or lists none and the action is connect. |
| RateLimit.Limiter.Handle | internal/api/middleware/ratelimit.go:24-57 | Off, every request passes and no bucket changes; on, the answer and the new buckets are those of the token bucket step for the key, other keys untouched. |
| RateLimit.Paid | internal/api/middleware/ratelimit.go:38-54 | Admissions of a key since a request, plus the tokens left, never exceed the burst plus what the time gone by earned. |
| RateLimit.AdmissionBound | internal/api/middleware/ratelimit.go:24-57 | From any request of a key to a later admitted one, both counted, at most burst + rate * time of them are admitted, with time stamps in any order and other keys in between. |
| RateLimit.AdmittedIff | internal/api/middleware/ratelimit.go:24-57 | Exactly who is admitted: a request passes if and only if, from each request of its key on, itself included, those admitted and it are at most burst + rate * time since then, where the burst is the rate and at least one; with time stamps in any order and whatever other keys do. |
| RateLimit.BurstAdmitted | internal/api/middleware/ratelimit.go:35-54 | With time that does not run backwards, a key's first requests, as many as the burst, are admitted, at the same instant or not. |
| RateLimit.SpacedNeverRejected | internal/api/middleware/ratelimit.go:24-57 | With time that does not run backwards, a key's first request and every request at least 1/rate after the key's previous one are admitted. |
| SessionStore.Store.CreateSessionUnderActiveLimit | internal/repository/store.go:657-685 | The row is inserted exactly when fewer sessions of its protocol and source are unfinished than the limit, which counts as 1 if it is not positive. |
| SessionStore.Store.FinishSessionOnce | internal/repository/store.go:688-707 | Exactly an unfinished row is finished and reported as changed; otherwise the row, if any, is returned unchanged. |
| SessionStore.Store.ListActiveNativeRDPSessionIDs | internal/repository/store.go:710-722 | Exactly the unfinished native RDP sessions, in ascending order. |
| RDPReason.SanitizeNativeRDPReason | internal/service/rdp_native.go:329-354 | The loop returns the first 64 clean characters of the trimmed, lower-cased reason, spaces turned into underscores, or disconnect if there are none. |
| RDPReason.SanitizedIsClean | internal/service/rdp_native.go:329-354 | A sanitized reason has 1 to 64 characters, all of them lower-case letters, digits, underscores, hyphens or dots. |
| RDPReason.SanitizeIdempotent | internal/service/rdp_native.go:329-354 | Sanitizing a sanitized reason changes nothing. |
| RDPReason.SanitizeIs | internal/service/rdp_native.go:329-354 | The result, character by character: in lower case, without white space around it, the letters, digits, underscores, hyphens and dots stay and spaces become underscores, in order, up to 64 of them; disconnect if there is none. |
| RDPReason.NamedActions | internal/service/rdp_native.go:356-369 | The actions of the five named reasons, word by word. |
| RDPReason.ActionStandsFor | internal/service/rdp_native.go:356-369 | Which reasons get an action, both ways: rdp.native. and their own name the five named ones, complete and target_failure alone; target_failure exactly the other target_ reasons, disconnect exactly the decimal integers of 64 bits, complete exactly the rest, the reason disconnect among them. |
| RDPReason.Int64Iff | internal/service/rdp_native.go:365-367 | A reason counts as an integer exactly if it is a sign or none and one digit or more whose value fits 64 bits. |
| RDPReason.ShutdownReason | internal/service/rdp_native.go:329-369 | The reason proxy_shutdown, written with capitals and blanks around it as in " Proxy_Shutdown ", is audited as rdp.native.proxy_shutdown. |
| RDPReason.FinishActionIsNeitherStartNorDenial | internal/service/rdp_native.go:356-369 | No reason makes a finish audit look like a start or a denial. |
| NativeRDP.Service.StartSession | internal/service/rdp_native.go:183-229 | A denial writes one denied audit and no row; a start under the limit writes one row and one start audit; at the limit no row and one denied audit. |
| NativeRDP.Service.FinishSession | internal/service/rdp_native.go:232-257 | Bad ids, unknown sessions and foreign sessions are refused and change nothing; an unfinished native session is finished with one audit that carries the sanitized reason; a finished one is left as it is. |
| NativeRDP.Service.FinishActiveSessions | internal/service/rdp_native.go:260-279 | Run alone, every active native session is finished, in order, none skipped, each with one audit of the reported reason, and every other row is unchanged. |
| NativeRDP.StartIs | internal/service/rdp_native.go:183-229 | What a start leaves and returns, table by table and field by field: one row for the granted user, asset and account with its start audit, or no row and a denial audit with the reason or max_connections, exactly when the unfinished sessions of the client reach the limit. |
| NativeRDP.FinishIs | internal/service/rdp_native.go:232-257 | What a finish leaves and returns for every id and row: refused unless the id is positive, known and of the native client; reported unchanged if finished already; else finished with one audit of the action for the sanitized reason. |
| RDPRuns.StartAlone | internal/service/rdp_native.go:183-229 | The steps of a start, with nothing in between, do what the whole call does. |
| RDPRuns.FinishAlone | internal/service/rdp_native.go:232-257 | The steps of a finish, with nothing in between, do what the whole call does. |
| RDPRuns.CleanupAlone | internal/service/rdp_native.go:260-279 | The steps of a cleanup, with nothing in between, finish and audit every native session active at its start, in order, with the sanitized reason, skip none and change nothing else. |
| RDPRuns.StepInv | internal/service/rdp_native.go:183-279 | Every single statement of every call in progress keeps the limit, the audit ledger of every session and the cleanup reports, and undoes nothing that was finished or audited. |
| RDPRuns.SessionsStayWithinLimit | internal/service/rdp_native.go:203-279 | In every interleaving, unfinished client RDP sessions never exceed the limit, no session has two start or two finish audits, an unfinished one has no finish audit, and when no start and no finish is in progress, those of cleanups included, every session has one start audit and every finished one exactly one finish audit; cleanups may have returned or be between two sessions. |
| RDPRuns.FinishedStaysFinished | internal/repository/store.go:688-707 | A finished native session is the same row in every continuation of every interleaving. |
| RDPRuns.CleanupReportsTruly | internal/service/rdp_native.go:260-279 | In every interleaving, the ids of a cleanup are the native sessions active when it was called, in ascending order; what it has handled of them is split in order into finished and skipped; all of it is finished, and each id reported finished was audited with the reported reason. |
| RDPRuns.ShutdownAudited | internal/service/rdp_native.go:260-279 | In every interleaving, each session that a cleanup for " Proxy_Shutdown " reports finished has been audited as rdp.native.proxy_shutdown, with the reason proxy_shutdown. |
| RDPRuns.OtherRowsLeftAlone | internal/service/rdp_native.go:241-243 | No step of starts, finishes and cleanups changes a session of another source, such as web_rdp. |
| RefreshTokens.AuthService.IssueTokens | internal/service/auth.go:150-176 | One unrevoked row of the user is added and no other row changes. |
| RefreshTokens.AuthService.Login | internal/service/auth.go:41-67 | A login whose checks passed adds one unrevoked row. |
| RefreshTokens.AuthService.Refresh | internal/service/auth.go:71-91 | An unknown, revoked or expired token changes nothing; otherwise its row alone is revoked, also when the user may no longer log in, and for a usable user there is one new row, unrevoked, of the same user and login. |
| RefreshTokens.AuthService.RevokeRefreshToken | internal/repository/store.go:262-275 | Exactly an unrevoked row is revoked; otherwise an error and no change. |
| RefreshTokens.AuthService.Logout | internal/service/auth.go:94-96 | Row by row: no row comes or goes, every row of the user is revoked, every row of another user is as before. |
| RefreshTokens.RefreshAlone | internal/service/auth.go:71-91 | A refresh, run alone, is its steps one after another: they leave the table of the whole call, record the new token's origin, and end the task. |
| RefreshTokens.LoginAlone | internal/service/auth.go:41-67 | A login, run alone, leaves one more row: unrevoked, of that user, for a login of its own. |
| RefreshTokens.StepInv | internal/service/auth.go:71-96 | Every step of concurrent logins, refreshes and logouts keeps: one usable token or rotating refresh for each login, one successor for each token, and nothing revoked becomes usable. |
| RefreshTokens.AtMostOneSuccessor | internal/service/auth.go:71-91 | In every interleaving, no two tokens come from the same one, and a token's successor belongs to its user and its login; the token itself is revoked. |
| RefreshTokens.TokensAccounted | internal/service/auth.go:41-91 | In every interleaving, each token ever issued is accounted for: as many rows as logins that issued tokens and refreshes that did. |
| RefreshTokens.NoMoreThanLogins | internal/service/auth.go:41-91 | In every interleaving, usable tokens and refreshes past their revoke step together never exceed the logins that issued tokens. |
| RefreshTokens.IssuedStayRevoked | internal/repository/store.go:278-281 | Every token a user had at a logout stays revoked in every continuation. |
| RefreshTokens.StaysUsableIff | internal/service/auth.go:71-96 | From any state of the invariant, a usable token is usable after a run if and only if, in it, its own user does not log out and no refresh that read it takes its revoke step. |
| RefreshTokens.UsableUntilTaken | internal/service/auth.go:71-96 | So in every run: nobody else's logout and no other refresh takes a token away. |
| RefreshTokens.LogoutFinalIff | internal/service/auth.go:71-96 | After a logout the user has no usable token in any continuation without a new login if and only if, at the logout, no login of the user was past its checks and no refresh past its revoke step. |
| RefreshTokens.RefreshOutlivesLogout | internal/service/auth.go:71-96 | A concrete run in which a logout between the two steps of a refresh leaves a usable token. |
| CommandFilter.FilteringReader.Read | internal/proxy/ssh/filter.go:135-156 | Handed out and buffered bytes are always exactly the kept lines of what was read; a call hands out as many bytes as are buffered and p allows, and leaves the source alone while any are; otherwise it reads on until a line is kept, or reports the last error of the source, and that only once all kept bytes are handed out. |
| CommandFilter.FilteringReader.WriteFiltered | internal/proxy/ssh/filter.go:162-181 | New bytes complete lines: kept ones join the buffer, rejected ones are announced, and an open line waits, so that the reader stands for all bytes read so far. |
| CommandFilter.Deliver | internal/proxy/ssh/filter.go:124-181 | For every chunking of the source, idle reads and swallowed failures included, and all positive read sizes, when an error is reported exactly the terminated lines of what was read that are not rejected have arrived, in order, each once, with one notice for each rejected line; without rules all of it has arrived; at EOF what was read is the whole input. |
| CommandFilter.LineEnd | internal/proxy/ssh/filter.go:163-171 | A line ends right behind its first CR or LF. |
| CommandFilter.LinesPartition | internal/proxy/ssh/filter.go:163-171 | The lines, each with one terminator at its end, and the open line, without one, make up the input. |
| CommandFilter.LinesAppend | internal/proxy/ssh/filter.go:162-171 | More input completes the open line and leaves the lines before it as they are. |
| CommandFilter.RejectsIff | internal/proxy/ssh/filter.go:78-89 | A line is rejected exactly when the first rule that matches its cleaned text denies or rejects. |
| CommandFilter.FirstMatchIff | internal/proxy/ssh/filter.go:83-87 | The rule that decides is the first one that matches. |
| CommandFilter.NoMatchIff | internal/proxy/ssh/filter.go:83-88 | There is no deciding rule exactly when none matches. |
| CommandFilter.StripIs | internal/proxy/ssh/filter.go:95-108 | Of a line, the rules see tab, line feed, carriage return and every byte from the space on but delete, in order, and no other byte. |
| CommandFilter.KeptIs | internal/proxy/ssh/filter.go:162-181 | What arrives are the lines that are not rejected, whole and in order. |
| CommandFilter.NoticesAre | internal/proxy/ssh/filter.go:162-181 | Each of the others is announced, in order, with the name of the rule that decided. |
| RefreshQueue.Client.ProcessQueue | web/src/api/client.ts:21-34 | Every queued request is resent or rejected, in queue order, and the queue is empty. |
| RefreshQueue.Client.OnUnauthorized | web/src/api/client.ts:78-116 | A 401 rejects login, refresh, retried and token-less requests, all but login at the price of the refresh token; it queues a request while a refresh is in flight, and otherwise starts the one refresh; nothing else changes. |
| RefreshQueue.Client.OnRefreshSettled | web/src/api/client.ts:112-132 | When the refresh settles, the queue is processed, the leader is resent or rejected, refreshing is over, and there is a refresh token exactly if it succeeded. |
| RefreshQueue.StepInv | web/src/api/client.ts:14-132 | Every event keeps the invariant that ties flag, queue, leader, retry marks, send counts and wake counts together. |
| RefreshQueue.SingleFlight | web/src/api/client.ts:14-132 | In every run at most one refresh is in flight, requests wait only while it is, a request is sent at most twice (login and refresh requests once) and woken from the queue at most once. |
| RefreshQueue.RefreshWakesAll | web/src/api/client.ts:112-132 | When a refresh settles in any run, every queued request is woken exactly once and, with the leader, resent (its second sending) or rejected; no request keeps waiting and no other one is touched. |
| RefreshQueue.FirstUnauthorizedWaits | web/src/api/client.ts:78-111 | In every run, the first 401 for a new request other than login and refresh, with a refresh token at hand, makes it wait: behind the refresh in flight, or as the one that starts it. |
| RefreshQueue.SecondUnauthorizedEnds | web/src/api/client.ts:83-86 | In every run, a 401 for a request that was sent a second time is final and drops the refresh token. |
| RefreshQueue.NoneStuck | web/src/api/client.ts:14-132 | In every run, a request that is not settled can still be resolved or rejected within two events: its answer, or the end of the refresh it waits for and its answer. |
| ShellQuote.QuotedIsWord | internal/service/sdk.go:382-395 | Before any further text, the quoted value is read as a word equal to the value, or as a comment when it is left unquoted and starts with #. |
| ShellQuote.OneWordIff | internal/service/sdk.go:382-395 | A shell word parser (sections 2.2.1, 2.2.2 and 2.3 of the POSIX.1-2017 Shell Command Language) reads the quoted value as exactly one word equal to it if and only if it is not a #-value of safe characters only. |
| ShellQuote.UnquotedIff | internal/service/sdk.go:382-395 | Exactly the non-empty values of letters, digits and - _ . : / # stay as they are. |
| ShellQuote.CommandLineReadsBack | internal/service/sdk.go:114-130 | Quoted arguments joined with spaces are read as exactly these arguments. |

## Left out

- White space and letter case are ASCII in the model: other Unicode white space, and letters
  whose lower or upper case is ASCII, are not covered.
- Regular expressions of command rules are arbitrary predicates on the cleaned line; loading
  and compiling rules is not modelled.
- `stripControls` decodes UTF-8 and replaces bytes that are not UTF-8; the model works on
  bytes, and differs in what the rules see of such bytes.
- CommandFilter.FilteringReader.Read: a source whose reads come back empty without an error
  for ever, on which the loop does not end, is not modelled; finitely many such reads are.
- TerminalScrubber.SortByLength: the order of secrets of equal length is one of those
  `sort.Slice` may leave; the theorems hold for all of them.
- SecretPairs.PairShownIff: for secrets that share bytes only NeverShown and PartNeverShown
  are proved; whether such a pair is shown depends on how the two overlap each other.
- MySQLResultSet.DecodeWritten: asks for fewer than 2^64 columns, which the 64-bit count
  field needs; cells are optional byte strings, and how `mysqlValueString` formats a value is
  not modelled.
- MySQL handshake, authentication, OK and ERR packets are not part of this model, nor is a
  client that reads a result set cut short by an error.
- PostgresRuns.RepliesFindTheirQueries: the server answers each simple query and each
  execute with one CommandComplete or one ErrorResponse; empty queries, several statements in
  one query, suspended portals and errors in Parse or Bind are outside of it, and a Parse of a
  live name replaces it. The client binds statements with some text and executes portals that
  are live by its own count, which is the server's unless it skips. NothingLostOrReordered and
  ReadyLeavesNothing need none of this.
- PostgresCare.CarefulNeverStrays: one direction, for a rule without texts; exactly which
  scripts can stray is CanStrayIff, and the exact condition for one more statement
  OneStatementIff.
- PostgresAudit.TextIsTextAtBind: is about the client's messages as the audit sees them; what
  the server has bound instead is the matter of `PostgresLookups` and `PostgresCare`.
- Start times, durations, row counts in command tags and failing calls of the audit API.
- PluginText.JsonGetString: starts where `json_find_value` found the key; finding it is not
  modelled. A `\u0000` escape puts a zero byte into the buffer, and the contract speaks of
  the buffer, not of the C string that ends at that byte.
- Running out of memory, and lengths whose product with 4 or 6 exceeds `size_t`.
- Permissions.HasPermissionIffCovered: for stored texts that NormalizeActions made; LIKE has
  no escape character and minds the case, which differs between SQL engines.
- RateLimit.AdmissionBound: over exact real numbers; rounding of floating point is left out.
- RDPRuns.SessionsStayWithinLimit: for a fixed limit, and with `rdp_client` rows written by
  this service alone; the general session update of internal/service/sessions.go, which can
  reopen a row, is left out, and so are database errors and calls that die half-way.
- NativeRDP.Service.StartSession: what Resolve answers is a parameter; of an audit row the
  action, the session and the reason are kept.
- Password checks, TOTP, JWT, hashing and drawing of token ids: a token is a fresh number, and
  the outcome of each check a parameter.
- RefreshTokens.AuthService.Refresh: whether the token has expired and whether its user may
  still log in are parameters.
- RefreshQueue.Client.OnUnauthorized: headers, stored tokens other than their presence, error
  texts and the redirect to the login page are left out; a refresh whose answer cannot be
  stored counts as failed.
- ShellQuote.OneWordIff: the parser knows blanks, comments, backslashes and single quotes;
  text with operators, expansions, double quotes, patterns, braces or unquoted line ends is
  outside of it, and a quoted value has none of these outside its quotes. NUL, which no
  argument can hold, is not excluded.
- Sockets, WebSockets, the PTY, guacd, FreeRDP process control, HTTP handlers, configuration,
  health checks, access policies by role, recording storage and the views of the web client
  would add only easy members.
