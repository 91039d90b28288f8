# DataBridge, verified

A model in Dafny of the parts of DataBridge that its guarantees rest on, with proofs of those
guarantees. DataBridge moves files between local directories and SFTP servers. It promises that a
destination is absent, unchanged or complete, that a transfer record tells the truth about the
destination, and that previews and listings of untrusted files and servers stay bounded and correct.

Check it with `dafny verify dfyconfig.toml`.

## Structure

| file | what it models |
|---|---|
| Common, Slices | bytes, results, error codes, the translation of request failures into error codes; texts inside texts |
| Wire, Replies | the reader of reply payloads, its attribute and NAME parsers, and the encoder they undo; what encoded replies mean to the client |
| Session | the request layer, and a server that performs, refuses, delays, reorders, misshapes and loses |
| Download, Upload, Pieces | the pipelined source and sink, refining a sequential read and a concatenation |
| RemoteWrite | one remote write: create a stage, fill it, publish it by a rename, clean up |
| Listing | directory pages, batched LSTATs and the bounded listing |
| Filenames | the filename policy and stage names |
| Filesystem, LocalRaces | inodes and hard links; many writers and readers of one directory, interleaved with crashes |
| LocalFiles | the local streams and the connector's write, call by call, among those writers |
| Store, Lifecycle | transfer records and recovery; the order of one transfer's events |
| Streams, Transfer | both kinds of source and destination behind one contract; one transfer from start to record |
| Protocol | processes, the owner lock, interleaved transfers, crashes and recovery, over whole runs |
| Service | the records of `Protocol` and the files of `LocalRaces` in one run |
| Preview, Schema | the head of a file that is previewed; schema inference |
| Json, JsonScalars, JsonText, Nesting, JsonPreview | the JSON decoder and the grammar it reads exactly, the nesting scan, rows of whole and of cut texts |
| Csv, CsvText | the reader's automaton, rows of whole and of cut texts, and the written texts they come from |
| RequestLog | the rotated request log |

Code that changes state in place is modelled by classes whose methods have the source's branches and
loops. Each is proved against a function of its state, and what the source promises is proved about
that function, or about all runs of a step system. The nondeterminism of servers, system calls,
clocks and commits is written as arbitrary choices inside the methods, so a contract holds for all
of them.

## Assumptions

- A status that parses is true: OK means that the request took effect, and any other code that it did
  not. A reply of another type, cut short or oversized tells nothing, and neither does a reply that
  does not come: the request may have taken effect or not. A handle means that the file was created.
- RENAME never replaces a file (section 6.5 of draft-ietf-secsh-filexfer-02), exclusive creation is
  exclusive, and a READ shows bytes of the file that was opened. `RemoteWrite` relies on the first,
  `Download` on the last.
- The size an opened remote file reports is at most its length, and the first `size` bytes of an
  opened source do not change in place. They may be cut off, and bytes may be appended.
- A system call either fails and changes nothing, or does what it says; a write that succeeds moves
  at least one byte; link, rename and replace are atomic, and so is a commit of the database.
- Whoever else works on a local directory is a writer or a reader of this service; between any two
  system calls of one they may take any steps. A transfer's identifier is its own.
- A process holds the owner lock until it ends, and its transfers end with it.
- What a download or an upload promises holds up to its first failure; after that its caller only
  releases it. Releasing fails only with transport errors.
- A source and a destination that are both remote use two sessions. Each session's model has its own
  copy of the server's files; other clients do not change the files it names meanwhile.

## Where the code differs from what is said about it

- `base.py:64-69` says that after any error of `write` the destination is absent or unchanged. For
  SFTP that is not so when no reply tells what became of the rename; for a lost session the message at
  `sftp.py:765-769` admits it. `RemoteWrite.Commit` and `Transfers.Transfer.Run` state the exact exception.
- `sftp.py:793-794` reasons that an answer with the code SFTP_OPERATION_FAILED shows that nothing was
  published. Two inputs have that code although the server may have performed the rename: a packet
  that is not SFTP (`RemoteWrite.GarbageHidesAPublication`), and a reply that is not a status that
  parses, such as an empty status (`RemoteWrite.MisshapenRepliesHideAPublication`, with the exact
  condition). The record is then failed as an ordinary refusal, or as DESTINATION_EXISTS because the new
  file itself is found. `RemoteWrite.Commit` excepts exactly these cases and the lost reply.
- A packet that is not SFTP ends a wait without ending the session. The number waited for is then
  neither received nor ignored, so its reply stays in the table (`Session.GarbageStrandsAReply`). On a
  session that was neither lost nor garbled nothing is left behind.
- `request_log.py:34-38` checks that the log is open only after it may have rotated, and rotating opens
  it. With a limit of 20, a log that is opened, takes an event of 12 bytes and is closed refuses an event
  of 3 bytes but takes another one of 12. `RequestLogs.RequestLog.Write` states when.
- `transfer.py:173-182` turns a failure to complete a record into TRANSFER_RECORD_FAILED, but only a
  typed one. A row that does not validate when it is read back (`store.py:408-411`) raises an exception
  of another kind, which escapes; the record stays `publishing` either way.
- Inferred types do move down as rows are added in one case: a field shown as `string` only because
  it had no values yet. `Schema.WhenShownMovesDown` gives the exact condition and
  `Schema.PlaceholderMovesDown` an input.
- The text that recovery writes into a record that was `running`, that the destination is unchanged,
  is true even without the owner lock (`Protocol.InterruptedCopiesPublishNothing`), because
  `mark_publishing` is a compare-and-set. What the lock prevents is a failed record for a transfer
  that goes on to publish (`Protocol.WithoutTheLock`).
- The pattern of the nesting scan does not match a backslash before a line feed, so there it leaves
  the string early, where the decoder refuses the text. `Nesting.ScanBoundsTheDecoder` covers this.

## Model

| member | source | states |
|---|---|---|
| Wire.Reader.TakeField | databridge/connectors/sftp.py:142-148 | a field that fits is exactly the next bytes, and one that does not leaves the offset where it was and is a bad message; the offset never passes the payload |
| Wire.Reader.ReadAttributes | databridge/connectors/sftp.py:128-140 | size and mode come from the positions the flags give them, the other parts are passed over, and the number of fields taken stays within half the bytes passed, for any claimed counts |
| Wire.Names | databridge/connectors/sftp.py:912-930 | on any bytes and any claimed count: all the entries, at least one, or a bad message; never past the payload, with work linear in its length |
| Wire.StringUndoesEncodeString | databridge/connectors/sftp.py:125-126 | reading a string undoes its encoding, whatever follows it |
| Wire.AttributesUndoesEncode | databridge/connectors/sftp.py:128-140 | reading attributes undoes the encoding of section 5 of the draft, for every combination of parts |
| Wire.NamesUndoEncode | databridge/connectors/sftp.py:912-930 | parsing a NAME reply undoes the encoding of its entries, one by one; a name that is no text, and . and .., become None and still count |
| Replies.RefusalsKeepTheirCode | databridge/connectors/sftp.py:191-196 | a status that the server encodes with a code other than OK is reported with that very code, and tells that nothing happened |
| Replies.AcceptancesSucceed | databridge/connectors/sftp.py:191-198 | an encoded OK succeeds where only a status was expected, and is a bad message where a result was |
| Replies.OtherRepliesAreBad | databridge/connectors/sftp.py:169-201 | a reply of another type, or one of more than 262144 bytes with its number, is a bad message |
| Replies.CutRefusalsAreBad | databridge/connectors/sftp.py:193-196 | a refusal cut anywhere before the end of its text is a bad message, and tells nothing |
| Replies.StringsAreCarried | databridge/connectors/sftp.py:125-126 | the handle or the data in a reply is what the server encoded; cut anywhere, there is none |
| Replies.AttributesAreSeen | databridge/connectors/sftp.py:128-140 | the size and the mode in a reply are those that the server encoded |
| Common.FailuresHaveTheirCodes | databridge/connectors/sftp.py:276-316 | every failure of a request has its own code: no file, no permission and an unsupported request those of their block, a session that is gone that it is unavailable, and the rest that the operation failed |
| Session.Requests.AsyncResponse | databridge/connectors/sftp.py:169-177 | a reply goes to its own number: dropped if ignored, marked if oversized, kept otherwise |
| Session.Requests.Send | databridge/connectors/sftp.py:179-181 | a request that was sent has a number nobody has claimed; one whose sending fails may still have reached the server |
| Session.Requests.Receive | databridge/connectors/sftp.py:183-201 | under every interleaving of replies, the result is the outcome of the answer to this very number, and the wait ends on every server |
| Session.Requests.Ignore | databridge/connectors/sftp.py:224-227 | the number counts as claimed and its reply is kept by nobody, whether it had arrived or not |
| Session.Requests.Call | databridge/connectors/sftp.py:203-210 | one request, at most, is added, and a result or a status is the outcome of its own answer |
| Session.Requests.CloseQuietly | databridge/connectors/sftp.py:239-242 | one CLOSE is sent and claimed, and no other request; only a session that is lost may leave it out |
| Session.PerformingKeeps | databridge/connectors/sftp.py:151-177 | replies and ignored numbers stay disjoint and belong to their requests whatever the server performs, and in whatever order |
| Session.DeliveringKeeps | databridge/connectors/sftp.py:169-177 | delivering a reply keeps every kept reply equal to its own request's answer |
| Session.ClaimingKeeps | databridge/connectors/sftp.py:194-227 | receiving or ignoring one number keeps that for all others |
| Session.NothingIsKept | databridge/connectors/sftp.py:163-201 | once every reply has arrived the ignore set is empty, and the reply table is empty if and only if every request was received or ignored |
| Session.LeftBehindStays | databridge/connectors/sftp.py:169-201 | then the table holds the reply to a request if and only if that request was left behind: neither received nor ignored |
| Session.GarbageStrandsAReply | databridge/connectors/sftp.py:183-201 | the input that leaves one behind on a session that goes on: a packet that is not SFTP ends the wait for a reply that still comes |
| RemoteRead.Download.ReadBytes | databridge/connectors/sftp.py:407-421 | refines a sequential read: for every arrival order and every short-reply pattern the result is exactly the next bytes of the first `size` bytes of the file, as many as asked for unless the file ends; it fails only if the session was lost or garbled or a reply to one of its READs had no data, empty data or more than was asked for, with the code of what the session has met, and with SOURCE_CHANGED if and only if a reply it received was an end of file or empty |
| RemoteRead.Download.NextReply | databridge/connectors/sftp.py:433-452 | the next nonempty part of the file, with what is pending again tiling the file from its end to the next unrequested byte |
| RemoteRead.Download.TakeFirst | databridge/connectors/sftp.py:440-452 | SOURCE_CHANGED if and only if the reply was an end of file or empty; what is returned is no longer than was asked for, and after a short reply its remainder is pending before everything else; a packet that is not SFTP leaves exactly this request behind; any error has its cause in the session or in a reply |
| RemoteRead.Download.Fill | databridge/connectors/sftp.py:435-438 | the window is full or everything is requested; the requests are adjacent, inside the size, and each asks for as much as one request may or for all that is left |
| RemoteRead.Download.Release | databridge/connectors/sftp.py:423-427 | the last request is the handle's one CLOSE, unless the session is lost; on a session neither lost nor garbled every request since the file was opened has been received or ignored, and in general exactly those are left behind that were before |
| RemoteRead.TilesExtend | databridge/connectors/sftp.py:435-438 | adding the next range keeps the ranges in flight tiling |
| Pieces.TilesAreDisjoint | databridge/connectors/sftp.py:477-483 | no two WRITE requests of an upload share a byte |
| Pieces.AnyOrder | databridge/connectors/sftp.py:477-483 | applying an upload's writes in any order gives the same file, their concatenation |
| RemoteStage.ReplayWrites | databridge/connectors/sftp.py:474-483 | what the server holds after writes that took effect, in the order it performed them, is those pieces written in that order |
| RemoteStage.AllStored | databridge/connectors/sftp.py:493-494 | once every status was OK the stage holds exactly the bytes written and no other file has changed, for every order of performing |
| RemoteStage.Upload.WriteBytes | databridge/connectors/sftp.py:474-483 | every byte is sent at its offset as the end of what was written before, in as few requests as REQUEST_SIZE allows, with as many unacknowledged as WINDOW allows and no more; it fails only if the session was lost or garbled or the status of a write was not OK, with the code of that |
| RemoteStage.Upload.Acknowledge | databridge/connectors/sftp.py:479-480 | a status other than OK on the oldest write is an error of the write that waits for it |
| RemoteStage.Upload.Settle | databridge/connectors/sftp.py:493-494 | succeeds only if the status of every write was OK, and then the stage holds every byte; fails only if the session was lost or garbled or a status was not OK |
| RemoteStage.Upload.Finish | databridge/connectors/sftp.py:485-523 | success means that every byte is stored, nothing is pending, and the handle had exactly one CLOSE, which was accepted; that an fsync was accepted or is unsupported, a STAT stated the right size, and a mode to be kept was set; a second call sends nothing and succeeds; any failure leaves only the stage touched, and has a cause: the session, a reply that is amiss, or a stage that is said to have another size |
| RemoteStage.Upload.Release | databridge/connectors/sftp.py:525-531 | nothing stays in flight; counted in the requests that were sent, the handle had exactly one CLOSE, here or in `finish`, or at most one if the session was lost; and no reply is left behind unless it was lost or garbled |
| RemoteStage.ContainedIsUntouched | databridge/connectors/sftp.py:636-660 | whatever subset of an upload's requests took effect, whatever the replies said, no file but its stage differs from the start |
| RemoteWrite.Begin | databridge/connectors/sftp.py:636-652 | a sink for a new, empty stage that did not exist before, or an error; either way no other file has changed; the mode to be kept is that of the file the first STAT found, if it states one; an error has the code of what the session has met, or is DESTINATION_EXISTS for a file that the STAT found; it means trouble with the session or a destination that may not be replaced, and the last request after a failed creation removes the stage |
| RemoteWrite.ModeParts | databridge/connectors/sftp.py:754-760 | a mode names a regular file if and only if its kind, the four bits above the permissions, is 8; the permissions are the twelve bits below |
| RemoteWrite.AnsweredCreation | databridge/connectors/sftp.py:646-652 | an answered exclusive creation leaves exactly one new, empty file |
| RemoteWrite.ReplayPublishing | databridge/connectors/sftp.py:762-800 | whatever the server does with the publication, the removal of the stage and the inspections, in any order, the destination is as before or holds the whole payload |
| RemoteWrite.AnsweredPublication | databridge/connectors/sftp.py:788-790 | a reply that tells decides the publication: after an OK it has happened, onto a free name if replacing was not allowed; after any other status that parses nothing has changed |
| RemoteWrite.Publish | databridge/connectors/sftp.py:762-800 | success means published; a failure leaves the destination untouched, unless the publication was sent and no reply tells what became of it; whatever may have been published without replacing was first looked for and not found; it fails only if the session or a reply failed, with the code of that, or with DESTINATION_EXISTS if a STAT found the destination in the way |
| RemoteWrite.CleanUp | databridge/connectors/sftp.py:655-660 | the handle has had its one CLOSE, counted in the requests sent, and only the stage was touched unless the publication went unanswered; the last request removes the stage unless the session is lost, and the stage is gone if that was answered with OK |
| RemoteWrite.Commit | databridge/connectors/sftp.py:653-660 | success means that the destination holds exactly the bytes written, and was absent before if replacing was not allowed; a failure leaves it untouched, except that it may also hold the whole payload if the publication was sent and no status that parses answered it; the handle had its one CLOSE; a failure has a cause in the session, a reply, the stage's stated size or an occupied destination, and ends with the removal of the stage |
| RemoteWrite.ReplayRemoves | databridge/connectors/sftp.py:655-660 | once the server has removed the stage, no request of the upload brings it back, whatever the server performs later and in whatever order |
| RemoteWrite.GarbageHidesAPublication | databridge/connectors/sftp.py:791-797 | a packet that is no SFTP reply reports the code of a refusal although the server may have accepted the RENAME it displaced |
| RemoteWrite.MisshapenRepliesHideAPublication | databridge/connectors/sftp.py:183-201 | an error made of a reply hides a publication that happened if and only if the reply is not a status that parses: of another type, cut short or oversized; its code is then that of a refusal |
| RemoteWrite.AnEmptyStatusTellsNothing | databridge/connectors/sftp.py:193-199 | such a reply |
| Filenames.StageIsNeverADestination | databridge/connectors/base.py:85-135 | no name the API accepts is a stage of any transfer, in any letter case |
| Filenames.StagesAreDistinct | databridge/connectors/base.py:133-135 | different transfers have different stages |
| Filenames.ValidNamesStayUnderTheRoot | databridge/connectors/base.py:85-114 | a valid name joined to any root leads to the entry of that name directly in the root |
| Filenames.ValidNames | databridge/connectors/base.py:85-114 | exactly these names are valid: single entries without a backslash or a NUL, of at most 255 bytes, that do not begin like a stage in any letter case |
| Listings.UntruncatedIsComplete | databridge/connectors/base.py:142-157 | a listing that is not truncated is exactly the sorted valid regular names, and it is truncated if and only if a cap is exceeded; one that is truncated has the first of them in the order of scanning, as many as the caps allow |
| Listings.NamesOfParts | databridge/connectors/base.py:142-150 | the names listed are those of the entries, one by one and in order: of regular files whose names are valid, and no others |
| Listings.SortedSorts | databridge/connectors/base.py:151-157 | the returned names are in order and none is lost or repeated |
| Listings.AtMostIsLexicographic | databridge/connectors/base.py:151-157 | the order: a prefix first, otherwise the smaller byte at the first difference |
| Listings.PagesAreSeen | databridge/connectors/sftp.py:912-930 | a page shows exactly the entries that the server encoded, each under its own name, with its size and mode |
| Listings.Entries.ReadPage | databridge/connectors/sftp.py:681-688 | one READDIR; its page is what the NAME reply to it carries, and not empty, or the reply said that the directory ends, or it is an error |
| Listings.Entries.Next | databridge/connectors/sftp.py:676-720 | the next entry of the pages, in their order, with the kind that its own mode or the reply to the LSTAT of its own name says: attributes that parse, or that the name is gone or hidden, and any other reply is an error; none only after the server said that the directory ends; at the cost of at most one READDIR, counted in the requests sent |
| Listings.Entries.Finish | databridge/connectors/sftp.py:718-720 | every LSTAT in flight is ignored and the last request is the directory's one CLOSE, unless the session is lost; on a session neither lost nor garbled no request of the listing is left behind |
| Listings.BoundedListing | databridge/connectors/base.py:142-157 | ends on every server after at most MAX_LIST_SCAN + 1 READDIR requests, counted in the requests sent; the entries listed are those the NAME replies carried, one by one, all of them up to the end the server reported unless the listing is truncated, and then it does not depend on what was not read; it fails only if the session was lost or garbled, a READDIR was answered with neither a page nor the end, or an LSTAT with neither attributes nor a name that is gone or hidden |
| LocalFiles.FileSource.ReadBytes | databridge/connectors/local.py:62-74 | for every short read the result is the next bytes of the opened file's first `size` bytes, and it is empty only at their end; if the file was cut off before that, the read fails; SOURCE_CHANGED says just that, and any other error that a system call failed |
| LocalFiles.FileSink.WriteBytes | databridge/connectors/local.py:83-91 | for every partial write of the system, and whatever other writers do between the calls, the stage gains exactly the bytes passed in, or the first of them; it fails if and only if a system call failed, with the code of that call's error |
| LocalFiles.FileSink.Finish | databridge/connectors/local.py:93-107 | the descriptor is closed, the stage still holds exactly what was written, whatever others did; a second call succeeds and does nothing; the size that is checked is always right, so only a system call can make it fail |
| LocalFiles.Begin | databridge/connectors/local.py:252-263 | an existing destination is refused unless it is regular and may be replaced; otherwise an empty stage under a new inode, and nothing else changed by this writer; it fails only if a call failed, with the code of its error, or the stage's name is taken or the destination may not be replaced |
| LocalFiles.CreateStage | databridge/connectors/local.py:255-263 | creation is exclusive; a missing directory is reported as such, and any other error by its own code |
| LocalFiles.Publish | databridge/connectors/local.py:306-321 | the system call is the publishing step of `LocalRaces`: success means that the destination leads to the staged inode with the whole payload, and the name was free at the call if replacing was not allowed; a failure means that a call failed or the name was taken, and the stage is as it was |
| LocalFiles.Commit | databridge/connectors/local.py:251-271 | while any others work on the directory: success means that one step of the history during this call led the destination to the stage, from free if replacing was not allowed, and that the file holds every byte written; failure means that nothing was published; either way the stage's name is gone unless its unlink failed; if no one else works there, every other name and every other inode is as before |
| LocalFiles.Abandon | databridge/connectors/local.py:264-271 | nothing was published and the stage's name is gone, unless its unlink failed |
| LocalRaces.StepKeeps | databridge/connectors/local.py:251-271 | the invariant of any number of concurrent writers, stages, hard links and open readers is kept by every step |
| LocalRaces.AtomicVisibility | databridge/connectors/local.py:306-321 | after any interleaving with crashes anywhere, a name shows what it showed at first or all the bytes of one writer that published there, and never disappears; it holds of every `LocalFiles.Disk`, whose directory is by its `Valid` the outcome of such a run |
| LocalRaces.FinishedIsFinal | databridge/connectors/local.py:264-271 | those are all the bytes the writer ever writes: a writer that has finished its stage never changes them, nor takes a publication back |
| LocalRaces.AtMostOneWinner | databridge/connectors/local.py:306-321 | a writer that may not overwrite publishes onto a name that was free at the start and free until the very step that publishes, and of such writers racing for a name at most one does |
| LocalRaces.PublishesOntoAFreeName | databridge/connectors/local.py:306-321 | that step: it leads the name to the stage, and before it the name was free if replacing was not allowed, whatever any other writer had published |
| LocalRaces.ReadersKeepTheirFile | databridge/connectors/local.py:214-249 | a source that is open keeps the whole file it opened, whatever is published over its name |
| LocalRaces.VisibleFilesStay | databridge/connectors/local.py:214-249 | whatever file an accepted name leads to at any time keeps its bytes for good |
| Store.RecordsStayWellFormed | databridge/store.py:360-432 | over every sequence of operations, the status determines which of the time and failure fields are set |
| Store.TerminalRecordsAreFinal | databridge/store.py:360-432 | a completed or failed record never changes, through any operations, refusals and recoveries |
| Store.StatusesMoveForward | databridge/store.py:380-428 | statuses only move forward, and a record completes only out of `publishing` |
| Store.TimesAreTrue | databridge/store.py:360-428 | the times of a record are those of its changes: of its insertion, of the last one committed, and of its end |
| Store.BytesAreFinalOncePublishing | databridge/store.py:376-394 | over every sequence of operations the byte count of a record that is `publishing` or completed stays, unless a failure states its own |
| Store.RecoveryIsIdempotent | databridge/store.py:201-208 | a second recovery changes nothing |
| Store.Ledger.Record | databridge/store.py:430-445 | a refused change or a failed commit changes nothing; a change that succeeds is the whole compare-and-set |
| Store.Ledger.FinishTransfer | databridge/store.py:396-411 | the completed record as it was read back; a change that is refused, a database failure and a record that cannot be read back all leave it as it was, the last with an exception that is no error of the service |
| Streams.ByteSource.ReadBytes | databridge/connectors/base.py:37-44 | one contract for both sources: the next bytes, none only at the end, or an error with a cause; what the sink has staged is not disturbed |
| Streams.ByteSink.WriteBytes | databridge/connectors/base.py:47-56 | one contract for both sinks: the bytes are added to what was written, or it fails with a cause and only the stage was touched; the open source still reads the same bytes, also in the same directory and among other writers |
| Streams.ByteSink.Commit | databridge/connectors/base.py:61-83 | publication of the whole payload, or no publication and a cause; in a directory no one else uses, no other accepted name has changed; which of the two is open only when the publication was unanswered |
| Streams.Directory.Begin | databridge/connectors/base.py:61-83 | a sink whose origin is the directory at this moment, or an error with a cause; this writer has changed no accepted name |
| Lifecycle.DueEventCommits | databridge/store.py:80-94 | an event that is due is never refused as a conflict, touches no other record, and never lowers the persisted byte count |
| Lifecycle.RecordFollows | databridge/transfer.py:112-146 | at every point of a transfer its record has the status and the byte count that the point calls for |
| Lifecycle.PersistedBytesGrow | databridge/transfer.py:151-171 | the persisted byte count never decreases between any two points of a transfer |
| Lifecycle.PublishedOnlyCompletes | databridge/transfer.py:135-146 | once a transfer is known to be published nothing but its completion is recorded: it never fails |
| Transfers.Transfer.PassChunk | databridge/transfer.py:151-160 | what the sink has is the source up to its position, before and after each chunk; a failure is of the side that the phase names |
| Transfers.Transfer.Copy | databridge/transfer.py:151-160 | on success the sink has every byte of the opened source and the count is their number; on failure both ends can be released |
| Transfers.Transfer.Checkpoint | databridge/transfer.py:162-171 | the clock is read once, and if an interval has passed since the last save the record has the bytes copied, or the database refused to save them; neither disturbs the copy |
| Transfers.Transfer.Prepare | databridge/transfer.py:129-134 | the record says `publishing` only once every byte is stored; after a failure it still says `running` |
| Transfers.Transfer.Attempt | databridge/transfer.py:117-146 | a failed release of the source no longer matters once the file is published; a transfer that is not known to be published has an open record |
| Transfers.Transfer.Complete | databridge/transfer.py:173-182 | a published transfer whose record cannot be completed reports that, and its record stays `publishing`; an unreadable record escapes as an untyped exception |
| Transfers.Transfer.GiveUp | databridge/transfer.py:184-203 | the record is failed with the phase, the code and the bytes copied; it stays open if and only if the database refused to record the failure |
| Transfers.Transfer.Run | databridge/transfer.py:112-146 | end to end, for either source and either destination: a completed record means that the destination holds exactly the bytes of the opened source, states their number, and that the name was free if replacing was not allowed; after any failure no accepted name has changed, unless a remote publication was sent that no reply tells about; among other writers of a local directory the same is said of this writer's own publication; a failed record names the error raised and the phase whose side has failed, a record is left open only if the database refused to say otherwise, and a published transfer is never failed |
| Protocol.StepKeeps | databridge/transfer.py:112-146 | every event of any transfer keeps what all records and publications satisfy |
| Protocol.TransferIsARun | databridge/transfer.py:112-146 | the events of a transfer, interleaved in any way with those of others and with other processes, have the effect on its record and its publication that the transfer's own contract states, as long as its process lives and it goes on |
| Protocol.InterruptedCopiesPublishNothing | databridge/store.py:59-63 | over every run with crashes anywhere: a record recovered from `running` belongs to a transfer that never published and never will, even if the lock failed to exclude another process |
| Protocol.CompletedMeansPublished | databridge/store.py:396-411 | a completed record belongs to a transfer that published, and states the number of bytes published |
| Protocol.PublishedWasPublishing | databridge/store.py:388-394 | whatever was published, its record said `publishing` before |
| Protocol.FailedOverPublished | databridge/store.py:64-66 | a failed record over a published file says that the service stopped while publishing, unless the publication was unanswered |
| Protocol.RecordsAreFinal | databridge/store.py:413-428 | a record that is over stays as it is for the rest of the run |
| Protocol.RecoveryFindsNothingLive | databridge/store.py:108-154 | recovery never meets a transfer in progress, in any process |
| Protocol.RecoveryEndsEveryRecord | databridge/store.py:201-208 | recovery fails every record that was open, as interrupted while copying or while publishing, now, with the bytes it had saved, and leaves the others as they are |
| Protocol.SecondRecoveryChangesNothing | databridge/store.py:201-208 | a restart after a recovery, with no transfer in between, changes no record |
| Protocol.WithoutTheLock | databridge/store.py:108-114 | why the lock is needed: a run without it in which recovery fails the record of a transfer that then publishes and cannot complete |
| Service.NextKeeps | databridge/transfer.py:112-146 | records and files together: every move of the service, of a writer or of a reader, and every crash, keeps what they say of each other |
| Service.InterruptedCopiesStayInvisible | databridge/store.py:59-63 | a record recovered from `running` tells the truth about the directory: after any run no accepted name leads to the file its transfer wrote, then or ever, even without the lock |
| Service.FailuresStayInvisible | databridge/transfer.py:184-203 | with the lock, so does every failed record except one that says that the service stopped while publishing |
| Service.CompletedWasWhole | databridge/store.py:396-411 | a completed record: one move led its destination to all the bytes its transfer wrote, as many as the record states, from free if replacing was not allowed, when the record said `publishing` |
| Service.PublishedOnce | databridge/transfer.py:135-146 | so for every publication, with its record completed or not |
| Service.EveryFileIsOnRecord | databridge/transfer.py:112-146 | after any run with crashes anywhere, every accepted name shows its first file or the whole payload of a transfer whose record is `publishing`, completed or interrupted while publishing, and states its length |
| Previews.ReadPrefix | databridge/preview.py:53-62 | through any short reads: the first MAX_PREVIEW_BYTES bytes, and whether the file is longer; it fails only if reading does |
| JsonScalars.StringsAreRead | databridge/preview.py:130-132 | every string of section 7 of RFC 8259, made of characters, the eight escapes and four-digit codes, is read to its end |
| JsonScalars.ReadStringsAreStrings | databridge/preview.py:130-132 | and nothing else is read as a string |
| JsonScalars.NumbersAreRead | databridge/preview.py:130-132 | every number of section 6 is read to its end, wherever it stops |
| JsonScalars.ReadNumbersAreNumbers | databridge/preview.py:130-132 | and nothing else is read as a number |
| JsonText.TreeReads | databridge/preview.py:130-132 | every tree, written by the grammar of RFC 8259 with any spaces between its tokens, anywhere in a text, decodes to itself and to its depth |
| JsonText.ReadTree | databridge/preview.py:130-132 | whatever the decoder reads is such a text of the value it returns, from the first character to the last |
| JsonText.DocumentsAreExact | databridge/preview.py:130-132 | a document decodes to a value if and only if it writes that value with spaces around it |
| JsonPreview.WholeFilesShowTheirRows | databridge/preview.py:142-153 | a file that was not cut shows the first rows of an array of objects, however it is written; one that nests too deep exceeds the limit, any other value is malformed, and a text that writes no value shows nothing |
| Json.ValueIsLocal | databridge/preview.py:172-174 | a complete value decodes identically in every text that agrees as far as its end, cut or extended, unless it is a number that could continue |
| Nesting.CheckNesting | databridge/preview.py:246-262 | the loop over tokens decides what the scan allows |
| Nesting.ScanBoundsTheDecoder | databridge/preview.py:246-262 | on every text, well-formed or not: if the scan passes, the decoder never recurses deeper than the limit, whether it succeeds or fails |
| Nesting.ScanIsExact | databridge/preview.py:246-262 | on a well-formed value the scan refuses exactly the values whose tree is deeper than the limit |
| Nesting.ValueDepth | databridge/preview.py:246-251 | the decoder's recursion is as deep as the tree it builds |
| JsonPreview.SkipSpace | databridge/preview.py:221-224 | the first position that is no space |
| JsonPreview.JsonPrefix | databridge/preview.py:155-197 | the loop over the entries of a cut text, with every error branch, returns what its specification says |
| JsonPreview.EntriesAgree | databridge/preview.py:164-197 | from any entry on, the rows of the cut text are the rows of the whole, exactly if the cut text reaches far enough |
| JsonPreview.PrefixAgrees | databridge/preview.py:142-197 | for every valid array of objects and every cut: rows are returned if and only if the cut text reaches the end of the last row wanted or of the array, and then they are the rows of the whole file |
| Csv.ParseRows | databridge/preview.py:76-107 | the loop over the reader's records, with every error branch, returns what its specification says; `CsvText.WrittenTextsParse` says what that is |
| Csv.RecordAgrees | databridge/preview.py:73-76 | every record read from a text cut at a line end is the same record of every longer text, also if a carriage return was cut from its line feed |
| Csv.BudgetRowsAreTheRows | databridge/preview.py:72-107 | the budget yields rows if and only if the whole file has that many and they end within the cut text, and then they are the rows of the whole file, however it continues |
| CsvText.RecordReads | databridge/preview.py:76-76 | a record reads back, each field bare or quoted, with quotes, commas and line breaks in it, and any line end or the end of the text behind it |
| CsvText.BlankReads | databridge/preview.py:87-89 | a blank line is no record |
| CsvText.BrokenReads | databridge/preview.py:76-76 | text behind a closing quote, and a quote that nothing closes, break a record |
| CsvText.WrittenTextsParse | databridge/preview.py:76-107 | what a text of any written lines shows: its header, which must be unique and nonempty, and the records up to the limit, without blank lines, each of which must have the width of the header; a cut text must have all of them |
| CsvText.BrokenTextsFail | databridge/preview.py:98-102 | a text that breaks before it has the rows wanted is malformed, or exceeds the budget if it was cut |
| Schema.InferSchema | databridge/preview.py:320-337 | the schema has exactly the header's and the rows' fields, each with the join of its values' types |
| Schema.SchemaIsRight | databridge/preview.py:320-337 | the fields are those of the header and of every row, each with the least type that its values in all rows have, or string if none has a type |
| Schema.JoinIsLeastUpperBound | databridge/preview.py:334-336 | the loop's combination of two types is their least upper bound |
| Schema.ObservedIsLeastBound | databridge/preview.py:327-337 | a field's type is the least one above the types of all its nonempty values |
| Schema.OrderDoesNotMatter | databridge/preview.py:320-337 | the order of rows and values does not matter, nor how often a value occurs |
| Schema.ObservedOnlyMovesUp | databridge/preview.py:327-337 | more rows move an observed type up only, and empty values do not move it |
| Schema.WhenShownMovesDown | databridge/preview.py:323-337 | the type shown moves down if and only if it was the placeholder of a field without values and the added rows show a type other than string |
| Schema.PlaceholderMovesDown | databridge/preview.py:323-332 | such a field |
| RequestLogs.RequestLog.Write | databridge/request_log.py:32-41 | an open log takes every event, rotating first if the file would overflow; a closed one takes an event if and only if it would overflow the current file, because rotating reopens the log, and otherwise refuses it and changes nothing |
| RequestLogs.RequestLog.Rotate | databridge/request_log.py:48-56 | the descending loop moves every file up by one without losing any but the last, and begins an empty file |
| RequestLogs.RotationDropsTheOldest | databridge/request_log.py:48-56 | a rotation drops the oldest file and nothing else, and keeps the order |
| RequestLogs.RunKeepsASuffix | databridge/request_log.py:32-56 | after any events the backups are contiguous, and the files from the oldest to the current one are a suffix of everything ever written |
| RequestLogs.WhatFitsStays | databridge/request_log.py:32-41 | as long as everything written fits, it all stays in the current file |
| RequestLogs.NoFileIsBegunEarly | databridge/request_log.py:32-41 | a file is begun only when the one before it has no room for the event |
| RequestLogs.NothingIsDroppedEarly | databridge/request_log.py:15-56 | a log that begins empty drops nothing before all its files are there, and every file was full when the next was begun |
| RequestLogs.FilesStayWithin | databridge/request_log.py:32-41 | every file begun empty stays within the size limit or holds a single event |
| RequestLogs.TotalIsBounded | databridge/request_log.py:15-24 | a log that begins empty never takes more than the limit for each of its files, over any events none of which exceeds the limit |

## Left out

- HTTP routes, request validation, settings, connection management and encryption: no part of the guarantees proved here. Of the application's start only the order of lock, recovery and serving is modelled.
- SSH connection, host keys, authentication and session setup: libraries.
- The descriptor of the owner lock (store.py:116-154): the lock is a part of the state in `Protocol`, exclusive and held until its process ends.
- Timeouts and the watchdog: an abandoned wait is a lost session, at any point.
- The slots of `TransferService.run` (transfer.py:78-96): a bounded semaphore around a run.
- Opening a source: STAT, OPEN and FSTAT of a remote file (sftp.py:605-634) and the checks of a local one (local.py:214-249) are one parameter of `Transfers.Transfer.Run`, an opened source or a failure with its phase.
- Streams.Directory.Begin: a remote write begins on a session that was just opened; that the session opens at all is not modelled.
- RemoteWrite.Commit: two sessions do not share one server's files, so concurrent remote writers of one name are not modelled as the local ones are in `LocalRaces`.
- Store.Ledger.Record: one process's view; SQLite's locking between connections is taken as atomic commits.
- Transfers.Transfer.Run: two transfers between the same local directories at once are two writers of `LocalRaces`, and `Service` interleaves their records; that a whole `Run` interleaved with others is such a run is proved for its steps in the directory (`LocalFiles.Disk.Valid`) and for its events (`Protocol.TransferIsARun`), not for both in one run.
- Service.EveryFileIsOnRecord: of a local directory; a remote publication may go unanswered, and `Protocol` has those.
- File modes: that a replaced file's mode is requested for the stage is modelled, its effect is not. Permissions of new files, symbolic links, fsync and directory synchronisation are left out.
- Message texts, and the attribution of a failure to a side (transfer.py:205-212). A failure's phase and code are modelled.
- Exceptions that break a stream's contract (`_CONTRACT_VIOLATIONS`, transfer.py:34-37): streams raise typed errors only.
- UTF-8: names and contents are bytes, with the decision whether a name is text as a parameter; previews begin with decoded text.
- `_cut_by_budget` (preview.py:200-218): whether a failed entry of a cut text counts as cut or as malformed is a parameter. Which error is reported therefore is not claimed, only which rows are returned and when.
- JsonPreview.PrefixAgrees: nothing is claimed about files that are not valid as a whole; a cut file may show rows although it is malformed further on.
- Numbers: whether an integer has too many digits or a float is out of range is a parameter of the decoder; strings and numbers are kept as their source text, and an object as its members in order.
- `_check_row` and `_type_of` (preview.py:265-317): tests of single values, the latter as a parameter of `Schema.InferSchema`.
- RequestLogs.RequestLog.Rotate: a rename that fails halfway is not modelled, nor is a start with gaps between the backups.
- Local and remote access probes, and the listing of a local directory beyond `bounded_listing` itself.
